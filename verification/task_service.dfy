// TaskService: tasks with soft delete, a paged and sorted listing, and
// projections that resolve user names. Every operation first consults the
// gate; a missing verdict throws on Data.Status, which the listing's catch
// turns into a 404 and the other operations' catch into a 500.
module TaskService {
  import opened Common
  import opened Domain
  import opened Jwt
  import opened TokenService
  import opened Ordering
  import CommentService

  /** The fields AddTaskDto and EditTaskDto carry. */
  datatype TaskInput = TaskInput(taskName: string, taskPriority: int, status: int, description: string,
                                 categoryId: string, assignedBy: Option<string>, dueDate: int)

  /** The tasks not soft-deleted, in table order. */
  function LiveTasks(tasks: seq<TaskEntity>): (r: seq<TaskEntity>)
    ensures forall t :: t in r <==> t in tasks && !t.isDeleted
  {
    Filter(tasks, (t: TaskEntity) => !t.isDeleted)
  }

  /** The Comments navigation of a task: every comment pointing at it, deleted ones included. */
  function CommentsOn(comments: seq<Comment>, taskId: string): (r: seq<Comment>)
    ensures forall c :: c in r <==> c in comments && c.taskId == taskId
  {
    Filter(comments, (c: Comment) => c.taskId == taskId)
  }

  // ---------------------------------------------------------------------------
  // GetTaskListing

  /** GetTaskListingDto. Priority and status are the enum values behind their names. */
  datatype ListingRow = ListingRow(taskName: string, categoryName: string, taskPriority: int,
                                   userAssignedTo: int, commentsOnTask: nat, dueDate: int, status: int)

  function RowOf(s: Store, t: TaskEntity): (r: ListingRow)
    ensures r.taskName == t.taskName && r.taskPriority == t.priority && r.status == t.status
    ensures r.commentsOnTask == |CommentsOn(s.comments, t.taskId)|
    ensures r.userAssignedTo == 1 <==> t.assignedById.Some?
    ensures FindCategory(s.categories, t.categoryId).None? ==> r.categoryName == "No Category "
  {
    ListingRow(t.taskName,
               match FindCategory(s.categories, t.categoryId)
               case None => "No Category "
               case Some(k) => s.categories[k].name,
               t.priority, if t.assignedById.Some? then 1 else 0,
               |CommentsOn(s.comments, t.taskId)|, t.dueDate, t.status)
  }

  function RowsOf(s: Store, page: seq<TaskEntity>): (r: seq<ListingRow>)
    ensures |r| == |page| && forall i :: 0 <= i < |r| ==> r[i] == RowOf(s, page[i])
  {
    seq(|page|, i requires 0 <= i < |page| => RowOf(s, page[i]))
  }

  /** The sort columns, matched exactly: the lower-cased and trimmed copies are discarded. */
  const TaskSortColumns: set<string> := {"taskpriority", "commentsontask", "status", "taskname", "duedate"}

  /** The ordering each column selects; "commentsontask" and "duedate" break ties by name in the
      same direction, the others leave ties unresolved. */
  function ListingKey(column: string): ListingRow -> Key
  {
    match column
    case "taskpriority" => (r: ListingRow) => Key(r.taskPriority, "")
    case "commentsontask" => (r: ListingRow) => Key(r.commentsOnTask, r.taskName)
    case "status" => (r: ListingRow) => Key(r.status, "")
    case "duedate" => (r: ListingRow) => Key(r.dueDate, r.taskName)
    case _ => (r: ListingRow) => Key(0, r.taskName)
  }

  /** Math.Max(1, pageNumber). */
  function ClampPageNumber(pageNumber: int): (r: int)
    ensures r >= 1 && r >= pageNumber && (r == pageNumber || r == 1)
  {
    if pageNumber < 1 then 1 else pageNumber
  }

  /** Math.Min(5, pageSize). */
  function ClampPageSize(pageSize: int): (r: int)
    ensures r <= 5 && r <= pageSize && (r == pageSize || r == 5)
  {
    if pageSize > 5 then 5 else pageSize
  }

  /** Skip((pageNumber - 1) * pageSize).Take(pageSize) over the live tasks, with the clamped values
      and the product computed in 32-bit arithmetic. */
  function ListingPage(s: Store, pageNumber: int32, pageSize: int32): seq<TaskEntity>
  {
    Take(Skip(LiveTasks(s.tasks), PageOffset(pageNumber as int, pageSize as int)), ClampPageSize(pageSize as int))
  }

  /** (pageNumber - 1) * pageSize on the clamped values, in unchecked 32-bit arithmetic. */
  function PageOffset(pageNumber: int, pageSize: int): (r: int)
    ensures Int32Min <= r <= Int32Max
    ensures var p := (ClampPageNumber(pageNumber) - 1) * ClampPageSize(pageSize);
            Int32Min <= p <= Int32Max ==> r == p
  {
    Wrap32((ClampPageNumber(pageNumber) - 1) * ClampPageSize(pageSize))
  }

  /** SQL Server refuses a negative OFFSET and a FETCH of fewer than one row; the query then
      throws when it is run. */
  predicate FetchRejected(offset: int, count: int)
  {
    offset < 0 || count < 1
  }

  /** GetTaskListing past a granting gate. The page is cut and sorted by the database, under the
      collation `collation` for the name keys. */
  function ListTasks(s: Store, collation: (string, string) -> bool, sortColumn: string, sortDirection: int32,
                     pageNumber: int32, pageSize: int32)
    : (r: Paged<seq<ListingRow>>)
    requires Collation(collation)
    ensures sortColumn !in TaskSortColumns ==>
      r == Paged(false, 204, "SortColumn Not Found", None,
                 ClampPageNumber(pageNumber as int), ClampPageSize(pageSize as int), 0)
    ensures sortColumn in TaskSortColumns && sortDirection != -1 && sortDirection != 1 ==>
      r == Paged(false, 204, "Invalid SortDirection", None,
                 ClampPageNumber(pageNumber as int), ClampPageSize(pageSize as int), 0)
    ensures sortColumn in TaskSortColumns && (sortDirection == -1 || sortDirection == 1)
            && FetchRejected(PageOffset(pageNumber as int, pageSize as int), ClampPageSize(pageSize as int)) ==>
      r == Paged(false, 404, "", None, 0, 0, 0)
    ensures r.code == 200 <==>
      sortColumn in TaskSortColumns && (sortDirection == -1 || sortDirection == 1)
      && !FetchRejected(PageOffset(pageNumber as int, pageSize as int), ClampPageSize(pageSize as int))
    ensures r.code == 200 ==>
      r.status && r.data.Some? && |r.data.value| <= 5
      && r.pageNumber == ClampPageNumber(pageNumber as int) && r.pageSize == ClampPageSize(pageSize as int)
      && multiset(r.data.value) == multiset(RowsOf(s, ListingPage(s, pageNumber, pageSize)))
      && Sorted(r.data.value, ListingKey(sortColumn), sortDirection == 1, collation)
      && r.totalRecords == TruncDiv(r.pageSize, r.pageNumber) && r.totalRecords <= 5
  {
    var pn := ClampPageNumber(pageNumber as int);
    var ps := ClampPageSize(pageSize as int);
    if sortColumn !in TaskSortColumns then Paged(false, 204, "SortColumn Not Found", None, pn, ps, 0)
    else if sortDirection != -1 && sortDirection != 1 then Paged(false, 204, "Invalid SortDirection", None, pn, ps, 0)
    else if FetchRejected(PageOffset(pageNumber as int, pageSize as int), ps) then Paged(false, 404, "", None, 0, 0, 0)
    else
      var page := ListingPage(s, pageNumber, pageSize);
      var rows := SortBy(RowsOf(s, page), ListingKey(sortColumn), sortDirection == 1, collation);
      Paged(true, 200, "Task List sorted successfully", Some(rows), pn, ps, TruncDiv(ps, pn))
  }

  /** GetTaskListing. */
  function GetTaskListing(s: Store, collation: (string, string) -> bool, cfg: JwtConfig, now: int, header: string,
                          sortColumn: string, sortDirection: int32, pageNumber: int32, pageSize: int32)
    : (r: Paged<seq<ListingRow>>)
    requires Collation(collation)
    ensures GateAt(s, cfg, now, header).NoVerdict? ==> r == Paged(false, 404, "", None, 0, 0, 0)
    ensures GateAt(s, cfg, now, header).Denied? ==>
      r == Paged(false, 401, "Please Login again and pass token!", None, 0, 0, 0)
    ensures GateAt(s, cfg, now, header).Granted? ==>
      r == ListTasks(s, collation, sortColumn, sortDirection, pageNumber, pageSize)
  {
    match GateAt(s, cfg, now, header)
    case NoVerdict => Paged(false, 404, "", None, 0, 0, 0)
    case Denied => Paged(false, 401, "Please Login again and pass token!", None, 0, 0, 0)
    case Granted(_) => ListTasks(s, collation, sortColumn, sortDirection, pageNumber, pageSize)
  }

  function Min(a: int, b: int): int { if a < b then a else b }

  /** A page the database accepts is a run of consecutive live tasks: at most five, none of them
      deleted, starting at the offset. */
  lemma ListingPageIsSlice(s: Store, pageNumber: int32, pageSize: int32)
    ensures var page := ListingPage(s, pageNumber, pageSize);
            |page| <= 5 && forall t :: t in page ==> t in s.tasks && !t.isDeleted
    ensures var ps := ClampPageSize(pageSize as int);
            var live := LiveTasks(s.tasks);
            var off := PageOffset(pageNumber as int, pageSize as int);
            !FetchRejected(off, ps) ==>
              ListingPage(s, pageNumber, pageSize) == live[Min(off, |live|)..Min(off + ps, |live|)]
  {
    var live := LiveTasks(s.tasks);
    var page := ListingPage(s, pageNumber, pageSize);
    var skipped := Skip(live, PageOffset(pageNumber as int, pageSize as int));
    forall t | t in page ensures t in s.tasks && !t.isDeleted {
      var i :| 0 <= i < |page| && page[i] == t;
      assert t == skipped[i];
      assert t in live;
    }
  }

  /** The listing orders only the page it has already cut from the table: the first page of
      size one, ascending by priority, holds the first live task even when a later live task
      has a lower priority. */
  lemma ListingSortsOnlyThePage(collation: (string, string) -> bool, a: TaskEntity, b: TaskEntity)
    requires Collation(collation)
    requires !a.isDeleted && !b.isDeleted && a.priority == 2 && b.priority == 1
    ensures var s := Store([], [], [a, b], [], []);
            var r := ListTasks(s, collation, "taskpriority", -1, 1, 1);
            r.code == 200 && r.data == Some([RowOf(s, a)])
            && RowOf(s, b).taskPriority < RowOf(s, a).taskPriority
  {
    var s := Store([], [], [a, b], [], []);
    assert LiveTasks(s.tasks) == [a, b] by {
      assert Filter([b], (t: TaskEntity) => !t.isDeleted) == [b];
    }
    assert PageOffset(1, 1) == 0;
    assert ListingPage(s, 1, 1) == [a];
    var r := ListTasks(s, collation, "taskpriority", -1, 1, 1);
    assert multiset(r.data.value) == multiset{RowOf(s, a)};
    assert |r.data.value| == 1;
    assert r.data.value[0] in multiset(r.data.value);
  }

  /** A page number large enough to wrap the 32-bit offset negative makes the database refuse the
      query, so the listing answers 404; without the wrap the offset would be past every row. */
  lemma HugePageNumberIsRejected(s: Store, collation: (string, string) -> bool)
    requires Collation(collation)
    ensures (429496731 - 1) * 5 > Int32Max && PageOffset(429496731, 5) < 0
    ensures ListTasks(s, collation, "taskname", -1, 429496731, 5) == Paged(false, 404, "", None, 0, 0, 0)
  {
    assert 2147483650 % TwoTo32 == 2147483650;
    assert Wrap32(2147483650) == -2147483646;
  }

  // ---------------------------------------------------------------------------
  // Projections of GetTaskByIdAsync and GetAllTasksAsync

  /** TaskCommentList. */
  datatype TaskComment = TaskComment(description: string, commentedById: string, commentedByName: Option<string>)

  /** GetAllTaskDto. */
  datatype TaskDetails = TaskDetails(taskName: string, taskPriority: int, status: int, description: string,
                                     categoryId: string, assignedBy: Option<string>, dueDate: int,
                                     createdByName: Option<string>, updatedByName: Option<string>,
                                     categoryName: Option<string>, categoryDescription: Option<string>,
                                     comments: seq<TaskComment>)

  /** The ids GetUserDictionaryAsync is asked for on behalf of one task: creator and updater. */
  function AuditIds(t: TaskEntity): set<string>
  {
    {t.createdById} + (if t.updatedById.Some? then {t.updatedById.value} else {})
  }

  /** The union of AuditIds over several tasks. */
  function AllAuditIds(tasks: seq<TaskEntity>): (r: set<string>)
    ensures forall t :: t in tasks ==> AuditIds(t) <= r
    ensures forall id :: id in r ==> exists t :: t in tasks && id in AuditIds(t)
  {
    if |tasks| == 0 then {} else AuditIds(tasks[0]) + AllAuditIds(tasks[1..])
  }

  /** A lookup in the user dictionary built for the ids `ids`: the user's name, or null. */
  function NameIn(users: seq<User>, ids: set<string>, id: string): (r: Option<string>)
    ensures r.Some? ==> id in ids && exists u :: u in users && u.id == id && u.userName == r.value
    ensures id in ids && (exists u :: u in users && u.id == id) ==> r.Some?
  {
    if id !in ids then None
    else match FindById(users, id)
      case None => None
      case Some(u) => Some(u.userName)
  }

  function CommentLine(users: seq<User>, ids: set<string>, c: Comment): TaskComment
  {
    TaskComment(c.description, c.commentedById, NameIn(users, ids, c.commentedById))
  }

  /** The projection of one task, resolving names against the dictionary for `ids`; a missing
      updater is looked up under the empty id. */
  function Details(s: Store, t: TaskEntity, ids: set<string>): (r: TaskDetails)
    ensures r.taskName == t.taskName && r.taskPriority == t.priority && r.status == t.status
    ensures r.description == t.description && r.categoryId == t.categoryId
    ensures r.dueDate == t.dueDate && r.assignedBy == t.assignedById
    ensures r.createdByName.Some? <==> t.createdById in ids && exists u :: u in s.users && u.id == t.createdById
    ensures r.createdByName.Some? ==>
      exists u :: u in s.users && u.id == t.createdById && u.userName == r.createdByName.value
    ensures var upd := if t.updatedById.Some? then t.updatedById.value else "";
      (r.updatedByName.Some? <==> upd in ids && exists u :: u in s.users && u.id == upd)
      && (r.updatedByName.Some? ==> exists u :: u in s.users && u.id == upd && u.userName == r.updatedByName.value)
    ensures r.categoryName.Some? <==> exists c :: c in s.categories && c.categoryId == t.categoryId
    ensures r.categoryDescription.Some? <==> r.categoryName.Some?
    ensures r.categoryName.Some? ==>
      exists c :: c in s.categories && c.categoryId == t.categoryId
                  && r.categoryName.value == c.name && r.categoryDescription.value == c.description
    ensures |r.comments| == |CommentsOn(s.comments, t.taskId)|
    ensures forall k :: 0 <= k < |r.comments| ==>
      var c := CommentsOn(s.comments, t.taskId)[k];
      r.comments[k].description == c.description && r.comments[k].commentedById == c.commentedById
      && (r.comments[k].commentedByName.Some? <==>
            c.commentedById in ids && exists u :: u in s.users && u.id == c.commentedById)
      && (r.comments[k].commentedByName.Some? ==>
            exists u :: u in s.users && u.id == c.commentedById && u.userName == r.comments[k].commentedByName.value)
  {
    var cs := CommentsOn(s.comments, t.taskId);
    var category := FindCategory(s.categories, t.categoryId);
    assert category.Some? ==> s.categories[category.value] in s.categories;
    TaskDetails(t.taskName, t.priority, t.status, t.description, t.categoryId, t.assignedById, t.dueDate,
                NameIn(s.users, ids, t.createdById),
                NameIn(s.users, ids, if t.updatedById.Some? then t.updatedById.value else ""),
                if category.Some? then Some(s.categories[category.value].name) else None,
                if category.Some? then Some(s.categories[category.value].description) else None,
                seq(|cs|, k requires 0 <= k < |cs| => CommentLine(s.users, ids, cs[k])))
  }

  /** GetTaskByIdAsync past a granting gate: the live task with this id. Its comments are all the
      comments on it, deleted ones included, and a commenter's name is resolved only when the
      commenter also created or last updated the task. */
  function TaskById(s: Store, taskId: string): (r: Response<TaskDetails>)
    ensures r.code == 200 <==> exists t :: t in s.tasks && t.taskId == taskId && !t.isDeleted
    ensures r.code != 200 ==> r == Fail(404, "Task not found")
    ensures r.code == 200 ==>
      r.data.Some? && (exists t :: t in s.tasks && t.taskId == taskId && !t.isDeleted
                                   && r.data.value == Details(s, t, AuditIds(t)))
  {
    match FirstIndex(s.tasks, (t: TaskEntity) => t.taskId == taskId && !t.isDeleted)
    case None => Fail(404, "Task not found")
    case Some(i) => Response(true, 200, "Task found successfully", Some(Details(s, s.tasks[i], AuditIds(s.tasks[i]))))
  }

  function GetTaskByIdAsync(s: Store, cfg: JwtConfig, now: int, header: string, taskId: string)
    : (r: Response<TaskDetails>)
    ensures GateAt(s, cfg, now, header).NoVerdict? ==> r == Fail(500, "Error getting task by ID: ")
    ensures GateAt(s, cfg, now, header).Denied? ==> r == Fail(401, "Please Login again and pass token!")
    ensures GateAt(s, cfg, now, header).Granted? ==> r == TaskById(s, taskId)
  {
    match GateAt(s, cfg, now, header)
    case NoVerdict => Fail(500, "Error getting task by ID: ")
    case Denied => Fail(401, "Please Login again and pass token!")
    case Granted(_) => TaskById(s, taskId)
  }

  /** GetAllTasksAsync past a granting gate: every live task, in table order, with names resolved
      against the creators and updaters of all of them; 404 when none is live. */
  function AllTasks(s: Store): (r: Response<seq<TaskDetails>>)
    ensures r.code == 200 <==> exists t :: t in s.tasks && !t.isDeleted
    ensures r.code != 200 ==> r == Fail(404, "No task found")
    ensures r.code == 200 ==>
      r.data.Some? && |r.data.value| == |LiveTasks(s.tasks)|
      && forall k :: 0 <= k < |r.data.value| ==>
           r.data.value[k] == Details(s, LiveTasks(s.tasks)[k], AllAuditIds(LiveTasks(s.tasks)))
  {
    var live := LiveTasks(s.tasks);
    if |live| == 0 then Fail(404, "No task found")
    else
      assert live[0] in live;
      var ids := AllAuditIds(live);
      Response(true, 200, "Task List found successfully", Some(seq(|live|, k requires 0 <= k < |live| => Details(s, live[k], ids))))
  }

  function GetAllTasksAsync(s: Store, cfg: JwtConfig, now: int, header: string): (r: Response<seq<TaskDetails>>)
    ensures GateAt(s, cfg, now, header).NoVerdict? ==> r == Fail(500, "Error getting all tasks: ")
    ensures GateAt(s, cfg, now, header).Denied? ==> r == Fail(401, "Please Login again and pass token!")
    ensures GateAt(s, cfg, now, header).Granted? ==> r == AllTasks(s)
  {
    match GateAt(s, cfg, now, header)
    case NoVerdict => Fail(500, "Error getting all tasks: ")
    case Denied => Fail(401, "Please Login again and pass token!")
    case Granted(_) => AllTasks(s)
  }

  // ---------------------------------------------------------------------------
  // Add, edit and delete

  function NewTask(taskId: string, input: TaskInput, uid: string): TaskEntity
  {
    TaskEntity(taskId, input.taskName, input.taskPriority, input.status, input.description, input.categoryId,
               input.assignedBy, input.dueDate, uid, None, None, false)
  }

  /** AddTaskAsync: the caller becomes the creator; priority and status are cast unchecked. */
  method AddTaskAsync(db: DataContext, cfg: JwtConfig, now: int, header: string, input: TaskInput, newId: string)
    returns (r: Response<()>)
    requires db.Valid()
    requires forall t :: t in db.tasks ==> t.taskId != newId
    modifies db
    ensures db.Valid()
    ensures match old(Authorize(db, cfg, now, header))
      case NoVerdict => r == Fail(500, "Error adding task: ") && db.Snapshot() == old(db.Snapshot())
      case Denied => r == Fail(401, "Please Login again and pass token!") && db.Snapshot() == old(db.Snapshot())
      case Granted(uid) =>
        r == Response(true, 201, "Task added successfully", None)
        && db.Snapshot() == old(db.Snapshot()).(tasks := old(db.tasks) + [NewTask(newId, input, uid)])
  {
    var gate := Authorize(db, cfg, now, header);
    match gate
    case NoVerdict => r := Fail(500, "Error adding task: ");
    case Denied => r := Fail(401, "Please Login again and pass token!");
    case Granted(uid) =>
      db.tasks := db.tasks + [NewTask(newId, input, uid)];
      r := Response(true, 201, "Task added successfully", None);
  }

  function EditedTask(t: TaskEntity, input: TaskInput, uid: string): TaskEntity
  {
    t.(taskName := input.taskName, priority := input.taskPriority, status := input.status,
       description := input.description, categoryId := input.categoryId, assignedById := input.assignedBy,
       dueDate := input.dueDate, updatedById := Some(uid))
  }

  /** EditTaskAsync: FindAsync finds soft-deleted tasks too, and editing leaves them deleted. */
  method EditTaskAsync(db: DataContext, cfg: JwtConfig, now: int, header: string, taskId: string, input: TaskInput)
    returns (r: Response<()>)
    requires db.Valid()
    modifies db
    ensures db.Valid()
    ensures match old(Authorize(db, cfg, now, header))
      case NoVerdict => r == Fail(500, "Error updating task: ") && db.Snapshot() == old(db.Snapshot())
      case Denied => r == Fail(401, "Please Login again and pass token!") && db.Snapshot() == old(db.Snapshot())
      case Granted(uid) =>
        var i := FindTask(old(db.tasks), taskId);
        if i.None? then r == Fail(404, "Task not found") && db.Snapshot() == old(db.Snapshot())
        else
          r == Response(true, 200, "Task updated successfully", None)
          && db.Snapshot() == old(db.Snapshot()).(tasks :=
               old(db.tasks)[i.value := EditedTask(old(db.tasks)[i.value], input, uid)])
  {
    var gate := Authorize(db, cfg, now, header);
    match gate
    case NoVerdict => r := Fail(500, "Error updating task: ");
    case Denied => r := Fail(401, "Please Login again and pass token!");
    case Granted(uid) =>
      var i := FindTask(db.tasks, taskId);
      if i.None? {
        return Fail(404, "Task not found");
      }
      db.tasks := db.tasks[i.value := EditedTask(db.tasks[i.value], input, uid)];
      r := Response(true, 200, "Task updated successfully", None);
  }

  function DeletedTask(t: TaskEntity, uid: string): TaskEntity
  {
    t.(isDeleted := true, updatedById := Some(uid), deletedById := Some(uid))
  }

  /** DeleteTaskAsync: 404 only for an absent task; an already deleted one is deleted again. */
  method DeleteTaskAsync(db: DataContext, cfg: JwtConfig, now: int, header: string, taskId: string)
    returns (r: Response<()>)
    requires db.Valid()
    modifies db
    ensures db.Valid()
    ensures match old(Authorize(db, cfg, now, header))
      case NoVerdict => r == Fail(500, "Error deleting task: ") && db.Snapshot() == old(db.Snapshot())
      case Denied => r == Fail(401, "Please Login again and pass token!") && db.Snapshot() == old(db.Snapshot())
      case Granted(uid) =>
        var i := FindTask(old(db.tasks), taskId);
        if i.None? then r == Fail(404, "Task not found") && db.Snapshot() == old(db.Snapshot())
        else
          r == Response(true, 200, "Task deleted successfully", None)
          && db.Snapshot() == old(db.Snapshot()).(tasks :=
               old(db.tasks)[i.value := DeletedTask(old(db.tasks)[i.value], uid)])
  {
    var gate := Authorize(db, cfg, now, header);
    match gate
    case NoVerdict => r := Fail(500, "Error deleting task: ");
    case Denied => r := Fail(401, "Please Login again and pass token!");
    case Granted(uid) =>
      var i := FindTask(db.tasks, taskId);
      if i.None? {
        return Fail(404, "Task not found");
      }
      db.tasks := db.tasks[i.value := DeletedTask(db.tasks[i.value], uid)];
      r := Response(true, 200, "Task deleted successfully", None);
  }

  /** After a delete the task is hidden from the reads (GetTaskById answers 404, the listing and
      GetAllTasks no longer hold it) while the lookup of edit and delete still finds it. */
  lemma DeletedTaskHiddenButFound(s: Store, i: int, uid: string)
    requires UniqueTaskIds(s.tasks) && 0 <= i < |s.tasks|
    ensures var after := s.(tasks := s.tasks[i := DeletedTask(s.tasks[i], uid)]);
            TaskById(after, s.tasks[i].taskId) == Fail(404, "Task not found")
            && (forall t :: t in LiveTasks(after.tasks) ==> t.taskId != s.tasks[i].taskId)
            && FindTask(after.tasks, s.tasks[i].taskId) == Some(i)
  {
    var after := s.(tasks := s.tasks[i := DeletedTask(s.tasks[i], uid)]);
    assert UniqueTaskIds(after.tasks);
    FindOwnTask(after.tasks, i);
    forall t | t in after.tasks && t.taskId == s.tasks[i].taskId ensures t.isDeleted {
      var k :| 0 <= k < |after.tasks| && after.tasks[k] == t;
      assert k == i;
    }
  }

  /** Deleting a task hides every comment on it from the comment reads, although the comments
      themselves are not deleted. */
  lemma DeletingTaskHidesItsComments(tasks: seq<TaskEntity>, comments: seq<Comment>, i: int, uid: string)
    requires UniqueTaskIds(tasks) && 0 <= i < |tasks|
    ensures var after := tasks[i := DeletedTask(tasks[i], uid)];
            forall c :: c in comments && c.taskId == tasks[i].taskId ==> !CommentService.Visible(after, c)
  {
    var after := tasks[i := DeletedTask(tasks[i], uid)];
    assert UniqueTaskIds(after);
    FindOwnTask(after, i);
  }
}
