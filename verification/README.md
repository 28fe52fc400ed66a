# Task manager backend: a Dafny model of its services

The backend is an ASP.NET Core service for a small task manager. Users register, confirm their
e-mail address, sign in and receive a JSON Web Token. They then create tasks, group them into
categories and comment on them. Every protected operation first passes the caller's
`Authorization` header to `TokenService.DecodeGeneratedToken`. That check succeeds only when the
token is validly signed, unexpired, names a registered user through its e-mail claim, and is
that user's newest, unrevoked refresh-token row. Tasks, categories and comments are
soft-deleted: a flag is set and the row is kept. The read operations filter on that flag, some
of them only partly.

The model has one Dafny module per service, plus shared vocabulary:

- `Common`: the response envelopes (`Response` for `ReturnResponse`, `Paged` for
  `PagedResponse`), C# 32-bit arithmetic, LINQ `Skip`/`Take`/`Where`, and `string.Replace`.
- `Ordering`: `OrderBy`/`ThenBy` under a string collation. The sort runs in the database, so
  the collation of the name columns is a parameter; ordinal order is one instance.
- `Domain`: the entities, the Identity lookups, and the `DataContext` class whose tables are
  sequences the services reassign.
- `Jwt`: tokens kept abstract as claims, an expiry and a signing key. The serialiser is a
  codec passed in by the caller.
- `TokenService`, `CheckHeaderService`, `TaskManagerService`, `CommentService`, `TaskService`,
  `TaskCategoryService`, `AdminService`: the seven services.

State-changing operations are methods on a `DataContext`. Each states the complete new state
of every table for each outcome of the authorization gate. Read operations are functions over a
`Store` snapshot, so lemmas can relate them to the writes. The gate's answer is read the way
the services read it:

- a response without payload makes `Data.Status` throw, and the operation's `catch` answers;
- a false status gives a 401;
- a true status grants the call to the user it names.

The clock, Identity's validators and token generators, Mailgun, and the JWT serialiser are
parameters.

Where the code and its documented design disagree, the model follows the code:

- Registration answers 200 once the user is created and a confirmation token could be made.
  Whether Mailgun delivered the mail is never consulted
  (`TaskManagerService.cs:186-207`).
- A missing token verdict is a 500 in most operations, not a 401. The two listings answer
  404 instead.
- The task listing cuts the page before sorting, so only the page is sorted.
- `sortColumn.ToLower()` and `Trim()` discard their results, so the column names match
  exactly (`TaskService.cs:58-59`).
- The category listing pages with the page number and size as passed, before clamping them.
- Both listings report `pageSize / pageNumber` as `totalRecords`.
- The listings page in SQL Server (`Program.cs:82`). A negative offset or a page size below one
  makes the query throw, and the catch answers 404 with zero page values. The task listing's
  offset can wrap negative for a huge page number; the category listing's is negative for page
  number zero, because it pages before clamping.
- Deleting a user removes the user's comments by cascade, and is refused (500) while a task
  names the user as its assigner (the migration's restrict rule).
- The two admin listings load tasks, categories, comments and assigners, but not the comment
  authors. An author is known only when the query tracks that user: the caller or an assigner.
  Any other author makes the listing throw, and the catch answers 500.
- `UpdateUser` writes `UserName` directly and leaves `NormalizedUserName` stale, and the name
  lookup reads `NormalizedUserName`. The stale name lasts until the user's next save through
  `UserManager`: a sign-in, a token refresh, an e-mail confirmation or a password reset. Each of
  those runs Identity's user validator and then recomputes `NormalizedUserName` from `UserName`.
  When the validator refuses the user, nothing of that save is written. A sign-in still answers
  200 then, but its refresh-token row is not saved.
- Edit and delete of tasks and categories find soft-deleted rows (`FindAsync`). Comments are
  found only while live.

## Model

| member | source | states |
|---|---|---|
| Common.Fail | TaskManagerBackend/Infrastructure/Services/ResponseGeneratorService.cs:1-36 | a response without payload carries a false status and the given code |
| Common.Wrap32 | TaskManagerBackend/Infrastructure/Services/TaskService.cs:51 | unchecked C# `int` arithmetic: the result is in the 32-bit range, congruent to the input modulo 2^32, and equal to it when it fits |
| Common.TruncDiv | TaskManagerBackend/Infrastructure/Services/TaskService.cs:44 | C# division truncates toward zero: the remainder takes the dividend's sign and is smaller than the divisor, and the quotient lies between 0 and the dividend |
| Common.Quot | TaskManagerBackend/Infrastructure/Services/TaskService.cs:44 | the quotient of a non-negative dividend satisfies q*b <= a < q*b + b |
| Common.Skip | TaskManagerBackend/Infrastructure/Services/TaskService.cs:51 | Enumerable.Skip: a count at or below zero skips nothing; the result is the suffix of the right length |
| Common.Take | TaskManagerBackend/Infrastructure/Services/TaskService.cs:52 | Enumerable.Take: a count at or below zero takes nothing; the result is the prefix of the right length |
| Common.Filter | TaskManagerBackend/Infrastructure/Services/TaskService.cs:50 | Enumerable.Where: exactly the elements satisfying the predicate, and no more elements than the input |
| Common.FilterPairwise | TaskManagerBackend/Infrastructure/Services/TaskManagerService.cs:288 | a relation between each element and every later one survives filtering, so deleting rows keeps the keys unique |
| Common.RemoveAll | TaskManagerBackend/Infrastructure/Services/TokenService.cs:157 | string.Replace(pat, "") never lengthens the string |
| Common.RemoveAllShrinksIffOccurs | TaskManagerBackend/Infrastructure/Services/TokenService.cs:157 | the string gets shorter exactly when the pattern occurs in it |
| Common.RemoveAllAbsent | TaskManagerBackend/Infrastructure/Services/TokenService.cs:157 | removing a pattern that does not occur leaves the string unchanged |
| Common.RemoveAllPrefix | TaskManagerBackend/Infrastructure/Services/TokenService.cs:157 | a leading occurrence of the pattern is removed |
| Common.StripBearer | TaskManagerBackend/Infrastructure/Services/TokenService.cs:155-157 | "Bearer " followed by a token without that pattern strips back to the token, and so does the bare token |
| Common.RemoveAllCanLeaveBearer | TaskManagerBackend/Infrastructure/Services/TokenService.cs:157 | the removal is a single pass: "BBearer earer " strips to "Bearer " |
| Ordering.OrdinalIsCollation | TaskManagerBackend/Infrastructure/Services/TaskService.cs:61-147 | ordinal comparison is a collation: total and transitive |
| Ordering.Insert | TaskManagerBackend/Infrastructure/Services/TaskService.cs:61-147 | insertion adds exactly one element to the multiset |
| Ordering.InsertSorted | TaskManagerBackend/Infrastructure/Services/TaskService.cs:61-147 | insertion into a sorted sequence keeps it sorted |
| Ordering.SortBy | TaskManagerBackend/Infrastructure/Services/TaskService.cs:61-147 | OrderBy/OrderByDescending, optionally with ThenBy, under any collation: the result is a permutation of the input, and every element may precede every later one under the key, the direction and the collation |
| Domain.FirstIndex | TaskManagerBackend/Infrastructure/Services/CommentService.cs:82-83 | FirstOrDefault: the position found satisfies the predicate and no earlier one does; None exactly when no element does |
| Domain.FindById | TaskManagerBackend/Infrastructure/Services/TaskManagerService.cs:261 | the user found carries the id; None exactly when no user does |
| Domain.FindByEmail | TaskManagerBackend/Infrastructure/Services/TaskManagerService.cs:126 | the user found carries the e-mail; None exactly when no user does |
| Domain.FindByName | TaskManagerBackend/Infrastructure/Services/TokenService.cs:49 | FindByNameAsync: the user found carries the name as its normalized user name; None exactly when no user does |
| Domain.UserIndex | TaskManagerBackend/Infrastructure/Services/TokenService.cs:128 | the position of the stored row with the id; None exactly when no row has it |
| Domain.SaveRefreshesNameLookup | TaskManagerBackend/Infrastructure/Services/TokenService.cs:128 | after a save the validator accepted, the user's current name finds that row, and the lookup name it held before no longer finds that user |
| Domain.SaveKeepsKeys | TaskManagerBackend/Infrastructure/Services/TaskManagerService.cs:333 | a save that keeps the row's id and e-mail keeps ids and e-mails unique |
| Domain.FindOwnUser | TaskManagerBackend/Infrastructure/Services/TokenService.cs:180 | with unique ids and e-mails, each user is what its own id and its own e-mail find |
| Domain.FindTask | TaskManagerBackend/Infrastructure/Services/TaskService.cs:232 | FindAsync by key: the position found holds the id, deleted or not; None exactly when no task has it |
| Domain.FindCategory | TaskManagerBackend/Infrastructure/Services/TaskCategoryService.cs:163 | FindAsync by key over the categories, deleted ones included |
| Domain.FindOwnTask | TaskManagerBackend/Infrastructure/Services/TaskService.cs:232 | with unique keys, a task's own id finds its position |
| Domain.FindOwnCategory | TaskManagerBackend/Infrastructure/Services/TaskCategoryService.cs:163 | with unique keys, a category's own id finds its position |
| Domain.DataContext.constructor | TaskManagerBackend/Persistance/DataContext.cs:1-90 | a new context has empty tables and satisfies the key invariants |
| Jwt.FindFirst | TaskManagerBackend/Infrastructure/Services/TokenService.cs:176-177 | FindFirst(type)?.Value: the value of the first claim of that type; None exactly when there is none |
| Jwt.RolesOf | TaskManagerBackend/Infrastructure/Services/TokenService.cs:70-73 | exactly the values of the role claims |
| Jwt.Validate | TaskManagerBackend/Infrastructure/Services/TokenService.cs:159-175 | ReadToken then ValidateToken: malformed exactly when the token does not parse; accepted exactly when it is signed with the key and, if the lifetime is checked, unexpired within the skew; the claims are the token's |
| TokenService.AccessClaimsRead | TaskManagerBackend/Infrastructure/Services/TokenService.cs:63-73 | an issued token reads back the user's name, e-mail and exactly the user's roles, and has no NameIdentifier claim |
| TokenService.GenerateTokenAsync | TaskManagerBackend/Infrastructure/Services/TokenService.cs:44-94 | fails exactly for an unknown user name or a wrong password; otherwise returns the serialised token with the user's claims, Jwt:Key and the configured lifetime |
| TokenService.RevokeActive | TaskManagerBackend/Infrastructure/Services/TokenService.cs:107-114 | every unrevoked row of the user is revoked now, every other row is unchanged, and no row of the user stays unrevoked |
| TokenService.Rotate | TaskManagerBackend/Infrastructure/Services/TokenService.cs:106-128 | after rotation the new row is the user's only unrevoked row, and at most one unrevoked row per user is preserved |
| TokenService.RevokeRows | TaskManagerBackend/Infrastructure/Services/TokenService.cs:107-114 | the revocation loop computes exactly `RevokeActive` |
| TokenService.SetRefreshToken | TaskManagerBackend/Infrastructure/Services/TokenService.cs:95-145 | with no user it answers 500 and changes nothing. Otherwise it answers 200 with the new row. When the validator accepts the user, the rotated rows and the user row with its recomputed lookup name are saved; when it refuses, nothing is saved. The other tables are untouched |
| TokenService.DecodeGeneratedToken | TaskManagerBackend/Infrastructure/Services/TokenService.cs:146-206 | a blank header gives 401; a payload exactly on 200; the token parsed and was unexpired; the verdict is true exactly when the stripped token is an unrevoked row of the user |
| TokenService.DecodeRefreshToken | TaskManagerBackend/Infrastructure/Services/TokenService.cs:207-263 | a blank header gives 401; a payload exactly on 200, whose verdict status is always false |
| TokenService.VerdictNamesUser | TaskManagerBackend/Infrastructure/Services/TokenService.cs:180-195 | both decoders' verdicts name a registered user |
| TokenService.GrantedMeans | TaskManagerBackend/Infrastructure/Services/TokenService.cs:189-197 | a granted caller is a registered user presenting an unrevoked row of their own; a blank header gives no verdict |
| TokenService.CarriesStrips | TaskManagerBackend/Infrastructure/Services/TokenService.cs:151-157 | a header carrying a token, with or without the scheme, is not blank and strips to that token |
| TokenService.RecordedTokenAuthorizes | TaskManagerBackend/Infrastructure/Services/TokenService.cs:119-128 | a token recorded for a user grants that user until it expires |
| TokenService.IssuedTokenAuthorizes | TaskManagerBackend/Infrastructure/Services/TokenService.cs:44-145 | issue then record: the issued token grants its user until it expires |
| TokenService.OnlyNewestTokenAuthorizes | TaskManagerBackend/Infrastructure/Services/TokenService.cs:107-114 | after a rotation the gate grants the user only the newest token |
| TokenService.ExpiredTokenStillRefreshes | TaskManagerBackend/Infrastructure/Services/TokenService.cs:226-234 | once expired, the gate throws (500) while the refresh decoder still resolves the token to its user |
| CheckHeaderService.CheckPassedUserToken | TaskManagerBackend/Infrastructure/Services/CheckHeaderService.cs:32-85 | a blank header gives 401 and a missing Jwt:Secret 500; on 200 the token is signed with the secret and unexpired within five minutes, names a user by e-mail, and the status is true exactly when a row (revoked or not) holds the token for its NameIdentifier |
| CheckHeaderService.NeverConfirmsIssuedTokens | TaskManagerBackend/Infrastructure/Services/CheckHeaderService.cs:58-76 | tokens the service issues carry no NameIdentifier, so this check never confirms them |
| CheckHeaderService.RevokedRowStillConfirmed | TaskManagerBackend/Infrastructure/Services/CheckHeaderService.cs:70 | a token whose only row is revoked is confirmed here but refused by the gate |
| TaskManagerService.GetUserByEmailOrUsername | TaskManagerBackend/Infrastructure/Services/TaskManagerService.cs:99-111 | an identifier containing '@' is looked up as an e-mail, any other non-empty one as a user name, the empty one finds nobody |
| TaskManagerService.LoginIdentifiers | TaskManagerBackend/Infrastructure/Services/TaskManagerService.cs:99-111 | either identifier finds its user, except that a user name containing '@' is only tried as an e-mail |
| TaskManagerService.SignInByCurrentNameAfterSave | TaskManagerBackend/Infrastructure/Services/TaskManagerService.cs:78 | after a save the validator accepted, the user's current name (without '@') signs that user in |
| TaskManagerService.LoginUserAsync | TaskManagerBackend/Infrastructure/Services/TaskManagerService.cs:50-98 | 401 for an unknown identifier or a wrong password; 500 when the name lookup of token issuing fails; otherwise 200 with the token. The token is recorded as the user's only unrevoked row, and the user row gets its recomputed lookup name, exactly when the validator accepts the user; otherwise nothing changes. Every failure changes nothing |
| TaskManagerService.LoginTokenAuthorizes | TaskManagerBackend/Infrastructure/Services/TaskManagerService.cs:74-82 | the token a sign-in returns grants the user until it expires |
| TaskManagerService.SendVerificationEmailAsync | TaskManagerBackend/Infrastructure/Services/TaskManagerService.cs:186-207 | the confirmation mail goes out and 200 is returned whenever a confirmation token could be made; otherwise 404 and no mail |
| TaskManagerService.RegisterUserAsync | TaskManagerBackend/Infrastructure/Services/TaskManagerService.cs:112-185 | 400 for mismatched passwords or a taken e-mail; otherwise the user is added exactly when Identity accepts it, the mail is attempted either way, and the answer is 200, 500 "Failed to send email" or 500 "Failed to register user" |
| TaskManagerService.ResendEmailVerificationLinkAsync | TaskManagerBackend/Infrastructure/Services/TaskManagerService.cs:208-251 | 404 for an unknown e-mail, 200 without mail for a confirmed one, otherwise the mail is re-sent or 500 |
| TaskManagerService.DeleteUserAsync | TaskManagerBackend/Infrastructure/Services/TaskManagerService.cs:252-317 | gate, requester, target and admin-or-self checks in that order; a task assigned by the user blocks the delete with 500; on success the user, the user's refresh rows and the user's comments are removed, and tasks and categories never change |
| TaskManagerService.RemoveUser | TaskManagerBackend/Infrastructure/Services/TaskManagerService.cs:287 | UserManager.DeleteAsync with the schema's cascades: the user's row goes and with it exactly the user's refresh rows and comments; the key invariants hold afterwards |
| TaskManagerService.VerifyEmailAsync | TaskManagerBackend/Infrastructure/Services/TaskManagerService.cs:318-353 | an undecodable token gives 500 before the user is looked up; 404 for an unknown e-mail; 400 when the token is refused or the validator refuses the user; on 200 the user's confirmation flag is set and the lookup name recomputed, nothing else |
| TaskManagerService.ForgotPasswordGenerateOtpAsync | TaskManagerBackend/Infrastructure/Services/TaskManagerService.cs:354-390 | only a confirmed e-mail gets a code; the sender's answer decides 200 or 500 |
| TaskManagerService.ResetPasswordWithOtpAsync | TaskManagerBackend/Infrastructure/Services/TaskManagerService.cs:391-440 | 404 for an unknown e-mail or a wrong code, 500 when the password or the user is refused; on 200 only that user's password changes and the lookup name is recomputed; the second UpdateAsync changes nothing |
| TaskManagerService.RefreshedTokenClaims | TaskManagerBackend/Infrastructure/Services/TaskManagerService.cs:504-528 | a refreshed token names the user but carries no role |
| TaskManagerService.GenerateNewRefreshToken | TaskManagerBackend/Infrastructure/Services/TaskManagerService.cs:443-503 | 401 unless the presented token is an unrevoked row; 404 when it does not decode to an existing user owning the e-mail; otherwise a role-less token is issued and rotated in, whether or not the validator accepts the user, since SaveChangesAsync follows; the user row gets its recomputed lookup name only when the validator accepts it. Every failure changes nothing |
| TaskManagerService.RefreshedTokenAuthorizes | TaskManagerBackend/Infrastructure/Services/TaskManagerService.cs:484-486 | the refreshed token grants its user until it expires |
| TaskManagerService.RefreshRevokesPresentedToken | TaskManagerBackend/Infrastructure/Services/TaskManagerService.cs:451-486 | a refresh token works once: afterwards no unrevoked row holds it |
| CommentService.VisibleComments | TaskManagerBackend/Infrastructure/Services/CommentService.cs:213-216 | exactly the comments that are live on a live task, each with its task |
| CommentService.FindLive | TaskManagerBackend/Infrastructure/Services/CommentService.cs:82-83 | the live comment with the id; None exactly when every comment with it is deleted |
| CommentService.AddCommentAsync | TaskManagerBackend/Infrastructure/Services/CommentService.cs:33-72 | a granted caller's comment is appended with the caller as author and creator; denied or missing verdicts change nothing |
| CommentService.UpdateCommentAsync | TaskManagerBackend/Infrastructure/Services/CommentService.cs:74-115 | any granted caller may edit any live comment, becoming its author; 404 otherwise; only that comment changes |
| CommentService.DeleteCommentAsync | TaskManagerBackend/Infrastructure/Services/CommentService.cs:281-343 | requester, live comment, then author-or-admin; on success only that comment is marked deleted |
| CommentService.GetCommentByIdAsync | TaskManagerBackend/Infrastructure/Services/CommentService.cs:117-200 | 200 exactly when a live comment on a live task has the id, returning it with its task |
| CommentService.GetAllCommentsAsync | TaskManagerBackend/Infrastructure/Services/CommentService.cs:202-269 | a granted call answers 200 with exactly the visible comments |
| CommentService.EditMakesEditorAuthor | TaskManagerBackend/Infrastructure/Services/CommentService.cs:91-94 | after an edit the editor is the author of the still-live comment, and so may delete it |
| CommentService.DeleteIsFinal | TaskManagerBackend/Infrastructure/Services/CommentService.cs:302-321 | after a delete no live or visible comment keeps the id, so updating or deleting it again answers 404 |
| TaskService.LiveTasks | TaskManagerBackend/Infrastructure/Services/TaskService.cs:50 | exactly the tasks not soft-deleted |
| TaskService.CommentsOn | TaskManagerBackend/Infrastructure/Services/TaskService.cs:154 | the Comments navigation: every comment on the task, deleted ones included |
| TaskService.RowOf | TaskManagerBackend/Infrastructure/Services/TaskService.cs:149-158 | a listing row counts all comments on the task, reports 1 exactly when the task has an assigner, and names "No Category " for a missing category |
| TaskService.RowsOf | TaskManagerBackend/Infrastructure/Services/TaskService.cs:149-158 | one row per task of the page, in order |
| TaskService.ClampPageNumber | TaskManagerBackend/Infrastructure/Services/TaskService.cs:41 | Math.Max(1, pageNumber) |
| TaskService.ClampPageSize | TaskManagerBackend/Infrastructure/Services/TaskService.cs:42 | Math.Min(5, pageSize) |
| TaskService.PageOffset | TaskManagerBackend/Infrastructure/Services/TaskService.cs:51 | the offset is a 32-bit value, equal to (pageNumber-1)*pageSize on the clamped values when that fits |
| TaskService.ListTasks | TaskManagerBackend/Infrastructure/Services/TaskService.cs:41-161 | 204 for an unknown column or a direction other than -1/1; 404 with zero page values when SQL Server refuses the offset or size; otherwise 200 with a permutation of the page's rows sorted under the collation (descending for 1), at most five rows, and pageSize / pageNumber as the total |
| TaskService.GetTaskListing | TaskManagerBackend/Infrastructure/Services/TaskService.cs:32-176 | a missing verdict gives 404 and a denied one 401, both with zero page values; a granted call is the listing |
| TaskService.ListingPageIsSlice | TaskManagerBackend/Infrastructure/Services/TaskService.cs:41-52 | the page holds at most five live tasks, and whenever SQL Server accepts the offset and size it is the run of live tasks starting at the offset |
| TaskService.ListingSortsOnlyThePage | TaskManagerBackend/Infrastructure/Services/TaskService.cs:48-80 | a page of one, sorted by priority, holds the first live task even when a later one has a lower priority |
| TaskService.HugePageNumberIsRejected | TaskManagerBackend/Infrastructure/Services/TaskService.cs:51 | page number 429496731 wraps the offset negative, so the query is refused and the listing answers 404 |
| TaskService.AllAuditIds | TaskManagerBackend/Infrastructure/Services/TaskService.cs:366-377 | exactly the creators and updaters of the tasks |
| TaskService.NameIn | TaskManagerBackend/Infrastructure/Services/TaskService.cs:420-424 | a name is resolved exactly for an id in the dictionary that belongs to a user |
| TaskService.Details | TaskManagerBackend/Infrastructure/Services/TaskService.cs:303-328 | the projection keeps the task's name, priority, status, description, category id, due date and assigner. The creator's and updater's names are present exactly when the id (an empty id for no updater) is in the dictionary and belongs to a user, and are that user's name. The category name and description are present exactly when a category row has the id, and are that row's. There is one line per comment on the task, with its description and author id, and the author's name resolved the same way |
| TaskService.TaskById | TaskManagerBackend/Infrastructure/Services/TaskService.cs:284-329 | 200 exactly when a live task has the id, with names resolved only for its creator and updater; 404 "Task not found" otherwise |
| TaskService.GetTaskByIdAsync | TaskManagerBackend/Infrastructure/Services/TaskService.cs:273-344 | 500 for a missing verdict, 401 when denied, otherwise the lookup |
| TaskService.AllTasks | TaskManagerBackend/Infrastructure/Services/TaskService.cs:356-403 | 200 exactly when some task is live, with one projection per live task in order; 404 otherwise |
| TaskService.GetAllTasksAsync | TaskManagerBackend/Infrastructure/Services/TaskService.cs:346-418 | 500 for a missing verdict, 401 when denied, otherwise the list |
| TaskService.AddTaskAsync | TaskManagerBackend/Infrastructure/Services/TaskService.cs:178-221 | a granted call appends the task with the caller as creator and answers 201; the other outcomes change nothing |
| TaskService.EditTaskAsync | TaskManagerBackend/Infrastructure/Services/TaskService.cs:223-271 | the task with the id, deleted or not, gets the new fields and the caller as updater; 404 when no task has the id |
| TaskService.DeleteTaskAsync | TaskManagerBackend/Infrastructure/Services/TaskService.cs:429-473 | the task with the id is marked deleted by the caller, even when already deleted; 404 when none has it |
| TaskService.DeletedTaskHiddenButFound | TaskManagerBackend/Infrastructure/Services/TaskService.cs:438-451 | after a delete GetTaskById answers 404 and the live tasks omit it, while edit and delete still find it |
| TaskService.DeletingTaskHidesItsComments | TaskManagerBackend/Infrastructure/Services/TaskService.cs:448 | deleting a task hides all its comments from the comment reads without deleting them |
| TaskCategoryService.LiveCategories | TaskManagerBackend/Infrastructure/Services/TaskCategoryService.cs:44 | exactly the categories not soft-deleted |
| TaskCategoryService.TasksIn | TaskManagerBackend/Infrastructure/Services/TaskCategoryService.cs:44 | the Tasks navigation: every task of the category, deleted ones included |
| TaskCategoryService.CategoryRowOf | TaskManagerBackend/Infrastructure/Services/TaskCategoryService.cs:89-96 | a row carries the name and the number of tasks in the category, deleted ones counted |
| TaskCategoryService.CategoryRowsOf | TaskManagerBackend/Infrastructure/Services/TaskCategoryService.cs:89-96 | one row per category of the page, in order |
| TaskCategoryService.ListCategories | TaskManagerBackend/Infrastructure/Services/TaskCategoryService.cs:44-98 | 404 "Invalid SortColumn" for an unknown column or direction; 404 with zero page values when SQL Server refuses the offset or size of the raw values; otherwise 200 with a permutation of the rows of the page cut with the raw values, sorted under the collation, and pageSize / pageNumber as the total |
| TaskCategoryService.CategoryOffset | TaskManagerBackend/Infrastructure/Services/TaskCategoryService.cs:44 | the offset is computed in unchecked 32-bit arithmetic on the values as passed |
| TaskCategoryService.PageNumberZeroIsRejected | TaskManagerBackend/Infrastructure/Services/TaskCategoryService.cs:44-47 | page number zero is reported as one, yet its offset is negative and the listing answers 404 |
| TaskCategoryService.GetTaskCategoryListing | TaskManagerBackend/Infrastructure/Services/TaskCategoryService.cs:36-112 | a missing verdict gives 404 and a denied one 401; a granted call is the listing |
| TaskCategoryService.PageExceedsReportedSize | TaskManagerBackend/Infrastructure/Services/TaskCategoryService.cs:44-47 | asking for six rows returns six while reporting a page size of five |
| TaskCategoryService.LiveTasksOf | TaskManagerBackend/Infrastructure/Services/TaskCategoryService.cs:250 | exactly the live tasks of the category, projected |
| TaskCategoryService.CategoryDetailsOf | TaskManagerBackend/Infrastructure/Services/TaskCategoryService.cs:243-262 | the projection keeps the category's fields and live tasks; a creator or updater name is present exactly when the id is in the dictionary and belongs to a user, and it is that user's name |
| TaskCategoryService.CategoryById | TaskManagerBackend/Infrastructure/Services/TaskCategoryService.cs:208-264 | 200 for a live category with its live tasks and names resolved for the creator only; 400 when only a deleted one has the id; 404 when none has |
| TaskCategoryService.GetTaskCategoryByIdAsync | TaskManagerBackend/Infrastructure/Services/TaskCategoryService.cs:199-280 | 500 for a missing verdict, 401 when denied, otherwise the lookup |
| TaskCategoryService.CategoryAuditIds | TaskManagerBackend/Infrastructure/Services/TaskCategoryService.cs:305-312 | exactly the creators, updaters and deleters of the categories |
| TaskCategoryService.AuditedNamesResolve | TaskManagerBackend/Infrastructure/Services/TaskCategoryService.cs:307-326 | with the dictionary of all audit ids, a category's creator and updater names are present exactly when a user has the id |
| TaskCategoryService.AllCategories | TaskManagerBackend/Infrastructure/Services/TaskCategoryService.cs:292-341 | 200 exactly when some category is live, one projection per live category in order, with its live tasks and with the creator's and updater's names resolved exactly when they belong to a user; 404 otherwise |
| TaskCategoryService.GetAllTaskCategoriesAsync | TaskManagerBackend/Infrastructure/Services/TaskCategoryService.cs:282-357 | 500 for a missing verdict, 401 when denied, otherwise the list |
| TaskCategoryService.AddTaskCategoryAsync | TaskManagerBackend/Infrastructure/Services/TaskCategoryService.cs:114-152 | a granted call appends the category with the caller as creator and answers 201 |
| TaskCategoryService.EditTaskCategoryAsync | TaskManagerBackend/Infrastructure/Services/TaskCategoryService.cs:154-197 | the category with the id, deleted or not, gets the new name and description and the caller as updater; 404 otherwise |
| TaskCategoryService.DeleteTaskCategoryAsync | TaskManagerBackend/Infrastructure/Services/TaskCategoryService.cs:361-404 | only the category is marked deleted; its tasks are left as they are |
| TaskCategoryService.DeletedCategoryStillNamesItsTasks | TaskManagerBackend/Infrastructure/Services/TaskCategoryService.cs:380-383 | after a delete the category lookup answers 400, yet the task listing still shows the category's name |
| AdminService.DetailsOf | TaskManagerBackend/Infrastructure/Services/AdminService.cs:115-137 | the details carry the user's name and e-mail and one entry per task, in order, with the task's name, the user as assigner and one line per comment on the task |
| AdminService.LoadedCommentsNamed | TaskManagerBackend/Infrastructure/Services/AdminService.cs:62-66 | when every comment author is tracked, each comment line carries the comment's text and its author's user name |
| AdminService.FirstPos | TaskManagerBackend/Infrastructure/Services/AdminService.cs:45 | the position of an element's first occurrence |
| AdminService.FirstPosInPrefix | TaskManagerBackend/Infrastructure/Services/AdminService.cs:45 | the first occurrence of an element of a prefix is its first occurrence in the whole sequence |
| AdminService.Distinct | TaskManagerBackend/Infrastructure/Services/AdminService.cs:45 | the GroupBy keys: exactly the elements of the input, each once, ordered by their first occurrence in the input |
| AdminService.Assigners | TaskManagerBackend/Infrastructure/Services/AdminService.cs:45 | the assigner of each task, in order |
| AdminService.AssignedBy | TaskManagerBackend/Infrastructure/Services/AdminService.cs:106 | exactly the tasks the user assigned |
| AdminService.GroupFor | TaskManagerBackend/Infrastructure/Services/AdminService.cs:46-68 | a group carries its assigner's e-mail and one entry per live task of that assigner |
| AdminService.GroupKeys | TaskManagerBackend/Infrastructure/Services/AdminService.cs:45 | the keys are distinct registered users, every live task's assigner is one, each has a live task, and they are ordered by their first occurrence among the live tasks' assigners |
| AdminService.KeysCoverLiveTasks | TaskManagerBackend/Infrastructure/Services/AdminService.cs:45 | every live task's assigner is a key, and every key is the registered assigner of some live task |
| AdminService.Groups | TaskManagerBackend/Infrastructure/Services/AdminService.cs:45-69 | one group per key, in key order |
| AdminService.AllUsers | TaskManagerBackend/Infrastructure/Services/AdminService.cs:38-89 | 500 with an empty list when a live task has no registered assigner or a comment on a live task has an author the query does not track; otherwise 200 with the groups |
| AdminService.ForeignCommenterFailsListing | TaskManagerBackend/Infrastructure/Services/AdminService.cs:62-66 | a comment on a live task by someone who is neither the caller nor an assigner makes the listing answer 500 |
| AdminService.GroupsHaveDistinctUsers | TaskManagerBackend/Infrastructure/Services/AdminService.cs:45-51 | with unique e-mails, no two groups belong to the same user |
| AdminService.DistinctUsersDistinctEmails | TaskManagerBackend/Infrastructure/Services/AdminService.cs:45-51 | with unique e-mails, two users with different ids have different e-mails |
| AdminService.EveryLiveTaskGrouped | TaskManagerBackend/Infrastructure/Services/AdminService.cs:45-68 | every live task appears in the group of its assigner |
| AdminService.NoEmptyGroup | TaskManagerBackend/Infrastructure/Services/AdminService.cs:45-68 | no group is empty |
| AdminService.GetAllUser | TaskManagerBackend/Infrastructure/Services/AdminService.cs:31-91 | 500 for a missing verdict and 401 when denied, both with an empty list; otherwise the grouping, with the caller as the tracked user |
| AdminService.UserDetailsFor | TaskManagerBackend/Infrastructure/Services/AdminService.cs:100-139 | 404 exactly when the caller is missing or assigned no live task; 200 exactly when, in addition, every comment on those tasks has a tracked author, with the details of those tasks; 500 otherwise |
| AdminService.DetailsNeedOwnComments | TaskManagerBackend/Infrastructure/Services/AdminService.cs:102-135 | the details answer 200 only while every comment on the caller's live tasks is the caller's own |
| AdminService.GetUserDetails | TaskManagerBackend/Infrastructure/Services/AdminService.cs:92-150 | 500 for a missing verdict, 401 when denied, otherwise the caller's details |
| AdminService.UpdateUser | TaskManagerBackend/Infrastructure/Services/AdminService.cs:151-193 | 403 unless the caller updates their own row (no admin override), 404 when the row is missing; otherwise only the names of that user change |
| AdminService.RenameLeavesNameLookupStale | TaskManagerBackend/Infrastructure/Services/AdminService.cs:174-178 | right after the rename no name lookup changes: every name finds the same user as before, and the old normalized name still finds the renamed user |
| AdminService.RenameTakesEffectOnNextSave | TaskManagerBackend/Infrastructure/Services/AdminService.cs:174-178 | at the next save that the validator accepts, the new name finds the renamed user and the old lookup name stops finding them |

## Left out

- Logging, `DateTime` stamps (`CreatedAt`, `UpdatedAt`, `DeletedAt`) and the token's issuer and audience are not modelled. Token expiry and revocation times are plain integers of seconds.
- Exception texts appended to messages (`{ex.Message}`, `{result.Errors}`) are not modelled. Each error message is its fixed prefix.
- Password hashing, the Identity password rules and the upper-casing of normalized user names and e-mails are not modelled; a normalized name is the name as given. A user's stored credential is compared for equality. The validators run when a user is created are a parameter. The user validator run when an existing user is saved is modelled: the name is not blank, uses Identity's default allowed characters, and no other user holds it as lookup name.
- `NormalizedEmail`, the security and concurrency stamps, and the access-failed count that `CheckPasswordSignInAsync` resets are not modelled. E-mail lookups compare the e-mail as stored.
- Failures of `SaveChangesAsync` (foreign-key or unique-key violations) are not modelled. New ids are required to be fresh, which the database's key generation ensures.
- Mailgun, the confirmation and one-time-code generators, and Base64Url decoding are parameters. The mail body and link are not modelled; only the recipient and subject are.
- SQL Server's collation is a parameter of the listings: any total, transitive order on names. Which collation the columns use is not modelled.
- Priority and status enums are their integer values; `ToString` of the enum names is not modelled.
- The order among rows with equal sort keys is not modelled. The database decides it; the model proves only a sorted permutation.
- `CommentService.GetCommentByIdAsync`, `CommentService.GetAllCommentsAsync`: the returned view holds the comment and its task; the user display names of `GetAllCommentDto` are not modelled.
- `AdminService.GroupFor`: a category name whose navigation is missing becomes `None` instead of a null-reference exception. The foreign key keeps the category row present, so this case does not arise in a consistent database.
- `TaskManagerService.DeleteUserAsync`: the model follows the migration, where `AssignedBy` is restrict. `DataContext.cs:61-65` declares cascade for it; under that rule the delete would also remove the tasks the user assigned, and comments on those tasks would then block it (`DataContext.cs:67-72`). Cascades through the other Identity tables (roles, claims, logins) are not modelled.
- `TaskService.RowOf`: `FindCategory` includes soft-deleted categories, as the `TaskCategory` navigation does.
- The controllers, `Program.cs` wiring and the Angular front end are not part of this model. Nor are the seeding code and `EmailSenderService.cs`.
