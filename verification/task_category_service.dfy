// TaskCategoryService: categories with soft delete and a paged listing whose
// page is cut with the caller's raw page number and size, before they are
// clamped for the reported metadata.
module TaskCategoryService {
  import opened Common
  import opened Domain
  import opened Jwt
  import opened TokenService
  import opened Ordering
  import TaskService

  /** The categories not soft-deleted, in table order. */
  function LiveCategories(categories: seq<TaskCategory>): (r: seq<TaskCategory>)
    ensures forall c :: c in r <==> c in categories && !c.isDeleted
  {
    Filter(categories, (c: TaskCategory) => !c.isDeleted)
  }

  /** The Tasks navigation of a category: every task pointing at it, deleted ones included. */
  function TasksIn(tasks: seq<TaskEntity>, categoryId: string): (r: seq<TaskEntity>)
    ensures forall t :: t in r <==> t in tasks && t.categoryId == categoryId
  {
    Filter(tasks, (t: TaskEntity) => t.categoryId == categoryId)
  }

  // ---------------------------------------------------------------------------
  // GetTaskCategoryListing

  /** GetTaskCategoryListingDto. */
  datatype CategoryRow = CategoryRow(categoryName: string, mostTaskCounts: nat)

  function CategoryRowOf(tasks: seq<TaskEntity>, c: TaskCategory): (r: CategoryRow)
    ensures r.categoryName == c.name && r.mostTaskCounts == |TasksIn(tasks, c.categoryId)|
  {
    CategoryRow(c.name, |TasksIn(tasks, c.categoryId)|)
  }

  function CategoryRowsOf(tasks: seq<TaskEntity>, page: seq<TaskCategory>): (r: seq<CategoryRow>)
    ensures |r| == |page| && forall i :: 0 <= i < |r| ==> r[i] == CategoryRowOf(tasks, page[i])
  {
    seq(|page|, i requires 0 <= i < |page| => CategoryRowOf(tasks, page[i]))
  }

  const CategorySortColumns: set<string> := {"Category Name", "MostTaskCounts"}

  /** "Category Name" orders by name; "MostTaskCounts" by task count, then name, in the same
      direction. */
  function CategoryKey(column: string): CategoryRow -> Key
  {
    if column == "MostTaskCounts" then (r: CategoryRow) => Key(r.mostTaskCounts, r.categoryName)
    else (r: CategoryRow) => Key(0, r.categoryName)
  }

  /** (pageNumber - 1) * pageSize on the values as passed, in unchecked 32-bit arithmetic. */
  function CategoryOffset(pageNumber: int32, pageSize: int32): (r: int)
    ensures Int32Min <= r <= Int32Max
  {
    Wrap32((pageNumber as int - 1) * (pageSize as int))
  }

  /** Skip((pageNumber - 1) * pageSize).Take(pageSize) over the live categories with the values
      as passed. */
  function CategoryPage(s: Store, pageNumber: int32, pageSize: int32): seq<TaskCategory>
  {
    Take(Skip(LiveCategories(s.categories), CategoryOffset(pageNumber, pageSize)), pageSize as int)
  }

  /** GetTaskCategoryListing past a granting gate. The page is cut and sorted by the database,
      under the collation `collation` for the names; a page the database refuses (see
      TaskService.FetchRejected) makes the query throw, and the catch answers 404. */
  function ListCategories(s: Store, collation: (string, string) -> bool, sortColumn: string,
                          sortDirection: int32, pageNumber: int32, pageSize: int32)
    : (r: Paged<seq<CategoryRow>>)
    requires Collation(collation)
    ensures !(sortColumn in CategorySortColumns && (sortDirection == -1 || sortDirection == 1)) ==>
      r == Paged(false, 404, "Invalid SortColumn", None,
                 TaskService.ClampPageNumber(pageNumber as int), TaskService.ClampPageSize(pageSize as int), 0)
    ensures sortColumn in CategorySortColumns && (sortDirection == -1 || sortDirection == 1)
            && TaskService.FetchRejected(CategoryOffset(pageNumber, pageSize), pageSize as int) ==>
      r == Paged(false, 404, "", None, 0, 0, 0)
    ensures r.code == 200 <==>
      sortColumn in CategorySortColumns && (sortDirection == -1 || sortDirection == 1)
      && !TaskService.FetchRejected(CategoryOffset(pageNumber, pageSize), pageSize as int)
    ensures r.code == 200 ==>
      r.status && r.data.Some?
      && r.pageNumber == TaskService.ClampPageNumber(pageNumber as int)
      && r.pageSize == TaskService.ClampPageSize(pageSize as int)
      && |r.data.value| == |CategoryPage(s, pageNumber, pageSize)|
      && multiset(r.data.value) == multiset(CategoryRowsOf(s.tasks, CategoryPage(s, pageNumber, pageSize)))
      && Sorted(r.data.value, CategoryKey(sortColumn), sortDirection == 1, collation)
      && r.totalRecords == TruncDiv(r.pageSize, r.pageNumber)
  {
    var pn := TaskService.ClampPageNumber(pageNumber as int);
    var ps := TaskService.ClampPageSize(pageSize as int);
    if sortColumn !in CategorySortColumns || (sortDirection != -1 && sortDirection != 1) then
      Paged(false, 404, "Invalid SortColumn", None, pn, ps, 0)
    else if TaskService.FetchRejected(CategoryOffset(pageNumber, pageSize), pageSize as int) then
      Paged(false, 404, "", None, 0, 0, 0)
    else
      var rows := SortBy(CategoryRowsOf(s.tasks, CategoryPage(s, pageNumber, pageSize)),
                         CategoryKey(sortColumn), sortDirection == 1, collation);
      Paged(true, 200, "Category List sorted succesfully", Some(rows), pn, ps, TruncDiv(ps, pn))
  }

  function GetTaskCategoryListing(s: Store, collation: (string, string) -> bool, cfg: JwtConfig, now: int,
                                  header: string, sortColumn: string, sortDirection: int32,
                                  pageNumber: int32, pageSize: int32)
    : (r: Paged<seq<CategoryRow>>)
    requires Collation(collation)
    ensures GateAt(s, cfg, now, header).NoVerdict? ==> r == Paged(false, 404, "", None, 0, 0, 0)
    ensures GateAt(s, cfg, now, header).Denied? ==>
      r == Paged(false, 401, "Please Login again and pass token!", None, 0, 0, 0)
    ensures GateAt(s, cfg, now, header).Granted? ==>
      r == ListCategories(s, collation, sortColumn, sortDirection, pageNumber, pageSize)
  {
    match GateAt(s, cfg, now, header)
    case NoVerdict => Paged(false, 404, "", None, 0, 0, 0)
    case Denied => Paged(false, 401, "Please Login again and pass token!", None, 0, 0, 0)
    case Granted(_) => ListCategories(s, collation, sortColumn, sortDirection, pageNumber, pageSize)
  }

  /** The page is cut before the clamp, so page number zero, which the response would report as
      page one, makes the offset negative and the database refuse the query. */
  lemma PageNumberZeroIsRejected(s: Store, collation: (string, string) -> bool)
    requires Collation(collation)
    ensures TaskService.ClampPageNumber(0) == 1 && CategoryOffset(0, 5) < 0
    ensures ListCategories(s, collation, "Category Name", -1, 0, 5) == Paged(false, 404, "", None, 0, 0, 0)
  {
    assert Wrap32(-5) == -5;
  }

  /** The page is cut before the clamp: asking for six rows returns six live categories while
      the response reports a page size of five. */
  lemma PageExceedsReportedSize(collation: (string, string) -> bool, c: TaskCategory)
    requires Collation(collation) && !c.isDeleted
    ensures var s := Store([], [], [], [c, c, c, c, c, c], []);
            var r := ListCategories(s, collation, "Category Name", -1, 1, 6);
            r.code == 200 && r.pageSize == 5 && |r.data.value| == 6
  {
    var cs := [c, c, c, c, c, c];
    var s := Store([], [], [], cs, []);
    LiveOnly(cs);
    assert CategoryOffset(1, 6) == 0 by {
      assert Wrap32(0) == 0;
    }
    assert CategoryPage(s, 1, 6) == cs by {
      assert Skip(cs, 0) == cs;
      assert Take(cs, 6) == cs;
    }
    assert !TaskService.FetchRejected(0, 6);
  }

  /** With no deleted category, the live categories are all of them. */
  lemma {:induction false} LiveOnly(categories: seq<TaskCategory>)
    requires forall k :: 0 <= k < |categories| ==> !categories[k].isDeleted
    ensures LiveCategories(categories) == categories
  {
    if |categories| > 0 {
      LiveOnly(categories[1..]);
      assert categories == [categories[0]] + categories[1..];
    }
  }

  // ---------------------------------------------------------------------------
  // Projections of GetTaskCategoryByIdAsync and GetAllTaskCategoriesAsync

  /** GetAllTaskForTaskCategoryDto. */
  datatype CategoryTask = CategoryTask(taskId: string, taskName: string, taskPriority: int, status: int,
                                       description: string, assignedBy: Option<string>, dueDate: int)

  /** GetAllTaskCategoryDto. */
  datatype CategoryDetails = CategoryDetails(categoryId: string, name: string, description: string,
                                             createdByName: Option<string>, updatedByName: Option<string>,
                                             isDeleted: bool, tasks: seq<CategoryTask>)

  function CategoryTaskOf(t: TaskEntity): CategoryTask
  {
    CategoryTask(t.taskId, t.taskName, t.priority, t.status, t.description, t.assignedById, t.dueDate)
  }

  /** The live tasks of a category, projected. */
  function LiveTasksOf(tasks: seq<TaskEntity>, categoryId: string): (r: seq<CategoryTask>)
    ensures forall x :: x in r ==> exists t :: t in tasks && t.categoryId == categoryId && !t.isDeleted
                                               && x == CategoryTaskOf(t)
    ensures forall t :: t in tasks && t.categoryId == categoryId && !t.isDeleted ==> CategoryTaskOf(t) in r
  {
    var live := TaskService.LiveTasks(TasksIn(tasks, categoryId));
    var r := seq(|live|, k requires 0 <= k < |live| => CategoryTaskOf(live[k]));
    assert forall t :: t in live ==> CategoryTaskOf(t) in r by {
      forall t | t in live ensures CategoryTaskOf(t) in r {
        var k :| 0 <= k < |live| && live[k] == t;
        assert r[k] == CategoryTaskOf(t);
      }
    }
    r
  }

  /** The projection of one category, resolving names against the dictionary for `ids`: a name
      is present exactly when the id was asked for and belongs to a user. */
  function CategoryDetailsOf(s: Store, c: TaskCategory, ids: set<string>): (r: CategoryDetails)
    ensures r.categoryId == c.categoryId && r.name == c.name && r.description == c.description
    ensures r.isDeleted == c.isDeleted && r.tasks == LiveTasksOf(s.tasks, c.categoryId)
    ensures r.createdByName.Some? <==> c.createdById in ids && exists u :: u in s.users && u.id == c.createdById
    ensures r.createdByName.Some? ==>
      exists u :: u in s.users && u.id == c.createdById && u.userName == r.createdByName.value
    ensures c.updatedById.Some? ==>
      (r.updatedByName.Some? <==> c.updatedById.value in ids && exists u :: u in s.users && u.id == c.updatedById.value)
    ensures c.updatedById.Some? && r.updatedByName.Some? ==>
      exists u :: u in s.users && u.id == c.updatedById.value && u.userName == r.updatedByName.value
  {
    CategoryDetails(c.categoryId, c.name, c.description,
                    TaskService.NameIn(s.users, ids, c.createdById),
                    TaskService.NameIn(s.users, ids, if c.updatedById.Some? then c.updatedById.value else ""),
                    c.isDeleted, LiveTasksOf(s.tasks, c.categoryId))
  }

  /** GetTaskCategoryByIdAsync past a granting gate: 200 for a live category with its live tasks,
      400 when only a deleted one has the id, 404 when none has. The user dictionary holds the
      creator only, so an updater's name is resolved only when the updater is the creator. */
  function CategoryById(s: Store, categoryId: string): (r: Response<CategoryDetails>)
    ensures r.code == 200 <==> exists c :: c in s.categories && c.categoryId == categoryId && !c.isDeleted
    ensures r.code == 400 <==>
      (forall c :: c in s.categories && c.categoryId == categoryId ==> c.isDeleted)
      && (exists c :: c in s.categories && c.categoryId == categoryId)
    ensures r.code == 400 ==> r == Fail(400, "Error: Task category is deleted.")
    ensures r.code == 404 <==> forall c :: c in s.categories ==> c.categoryId != categoryId
    ensures r.code == 404 ==> r == Fail(404, "Task category not found.")
    ensures r.code == 200 ==>
      r.data.Some? && r.data.value.categoryId == categoryId && !r.data.value.isDeleted
      && r.data.value.tasks == LiveTasksOf(s.tasks, categoryId)
      && (exists c :: c in s.categories && c.categoryId == categoryId && !c.isDeleted
                      && r.data.value == CategoryDetailsOf(s, c, {c.createdById}))
  {
    match FirstIndex(s.categories, (c: TaskCategory) => c.categoryId == categoryId && !c.isDeleted)
    case Some(i) =>
      var c := s.categories[i];
      Response(true, 200, "Got a taskcategory successfully", Some(CategoryDetailsOf(s, c, {c.createdById})))
    case None =>
      if exists c :: c in s.categories && c.categoryId == categoryId && c.isDeleted then
        Fail(400, "Error: Task category is deleted.")
      else Fail(404, "Task category not found.")
  }

  function GetTaskCategoryByIdAsync(s: Store, cfg: JwtConfig, now: int, header: string, categoryId: string)
    : (r: Response<CategoryDetails>)
    ensures GateAt(s, cfg, now, header).NoVerdict? ==> r == Fail(500, "Error getting task category by ID: ")
    ensures GateAt(s, cfg, now, header).Denied? ==> r == Fail(401, "Please Login again and pass token!")
    ensures GateAt(s, cfg, now, header).Granted? ==> r == CategoryById(s, categoryId)
  {
    match GateAt(s, cfg, now, header)
    case NoVerdict => Fail(500, "Error getting task category by ID: ")
    case Denied => Fail(401, "Please Login again and pass token!")
    case Granted(_) => CategoryById(s, categoryId)
  }

  /** x is the creator, updater or deleter of c. */
  predicate AuditsCategory(c: TaskCategory, x: string)
  {
    x == c.createdById || c.updatedById == Some(x) || c.deletedById == Some(x)
  }

  /** The ids GetUserDictionaryAsync is asked for: the creators, updaters and deleters (where
      present) of the categories, and nothing else. */
  function CategoryAuditIds(categories: seq<TaskCategory>): (r: set<string>)
    ensures forall x :: x in r <==> exists c :: c in categories && AuditsCategory(c, x)
  {
    if |categories| == 0 then {}
    else
      var c := categories[0];
      var rest := CategoryAuditIds(categories[1..]);
      var r := {c.createdById} + (if c.updatedById.Some? then {c.updatedById.value} else {})
               + (if c.deletedById.Some? then {c.deletedById.value} else {}) + rest;
      assert forall x :: x in r <==> exists d :: d in categories && AuditsCategory(d, x) by {
        assert categories == [c] + categories[1..];
        forall x ensures x in r <==> exists d :: d in categories && AuditsCategory(d, x) {
          if x in rest {
            var d :| d in categories[1..] && AuditsCategory(d, x);
            assert d in categories;
          } else if x in r {
            assert c in categories && AuditsCategory(c, x);
          }
          if exists d :: d in categories && AuditsCategory(d, x) {
            var d :| d in categories && AuditsCategory(d, x);
            if d != c {
              assert d in categories[1..];
            }
          }
        }
      }
      r
  }

  /** Each category's creator, and its updater where present, is among the audit ids. */
  lemma AuditIdsCover(categories: seq<TaskCategory>)
    ensures forall k :: 0 <= k < |categories| ==>
      categories[k].createdById in CategoryAuditIds(categories)
      && (categories[k].updatedById.Some? ==> categories[k].updatedById.value in CategoryAuditIds(categories))
  {
    forall k | 0 <= k < |categories|
      ensures categories[k].createdById in CategoryAuditIds(categories)
      ensures categories[k].updatedById.Some? ==> categories[k].updatedById.value in CategoryAuditIds(categories)
    {
      assert categories[k] in categories && AuditsCategory(categories[k], categories[k].createdById);
      if categories[k].updatedById.Some? {
        assert AuditsCategory(categories[k], categories[k].updatedById.value);
      }
    }
  }

  /** Since the dictionary holds every creator and updater id, a category's names are present
      exactly when a user has the id. */
  lemma AuditedNamesResolve(s: Store, live: seq<TaskCategory>)
    ensures forall k :: 0 <= k < |live| ==>
      var d := CategoryDetailsOf(s, live[k], CategoryAuditIds(live));
      d.isDeleted == live[k].isDeleted && d.name == live[k].name
      && (d.createdByName.Some? <==> exists u :: u in s.users && u.id == live[k].createdById)
      && (live[k].updatedById.Some? ==>
            (d.updatedByName.Some? <==> exists u :: u in s.users && u.id == live[k].updatedById.value))
  {
    AuditIdsCover(live);
  }

  /** GetAllTaskCategoriesAsync past a granting gate: every live category in table order, each
      with its live tasks and with the creator's and updater's names resolved through the
      dictionary of all the live categories' audit ids; 404 when none is live. */
  function AllCategories(s: Store): (r: Response<seq<CategoryDetails>>)
    ensures r.code == 200 <==> exists c :: c in s.categories && !c.isDeleted
    ensures r.code != 200 ==> r == Fail(404, "No Category data found.")
    ensures r.code == 200 ==>
      r.data.Some? && |r.data.value| == |LiveCategories(s.categories)|
      && forall k :: 0 <= k < |r.data.value| ==>
           r.data.value[k] == CategoryDetailsOf(s, LiveCategories(s.categories)[k],
                                                CategoryAuditIds(LiveCategories(s.categories)))
    ensures r.code == 200 ==>
      forall k :: 0 <= k < |r.data.value| ==>
        var c := LiveCategories(s.categories)[k];
        !r.data.value[k].isDeleted && r.data.value[k].name == c.name
        && (r.data.value[k].createdByName.Some? <==> exists u :: u in s.users && u.id == c.createdById)
        && (c.updatedById.Some? ==>
              (r.data.value[k].updatedByName.Some? <==> exists u :: u in s.users && u.id == c.updatedById.value))
  {
    var live := LiveCategories(s.categories);
    if |live| == 0 then Fail(404, "No Category data found.")
    else
      assert live[0] in live;
      var ids := CategoryAuditIds(live);
      AuditedNamesResolve(s, live);
      Response(true, 200, "Category List found successfully",
               Some(seq(|live|, k requires 0 <= k < |live| => CategoryDetailsOf(s, live[k], ids))))
  }

  function GetAllTaskCategoriesAsync(s: Store, cfg: JwtConfig, now: int, header: string)
    : (r: Response<seq<CategoryDetails>>)
    ensures GateAt(s, cfg, now, header).NoVerdict? ==>
      r == Fail(500, "Error getting all non-deleted task categories: ")
    ensures GateAt(s, cfg, now, header).Denied? ==> r == Fail(401, "Please Login again and pass token!")
    ensures GateAt(s, cfg, now, header).Granted? ==> r == AllCategories(s)
  {
    match GateAt(s, cfg, now, header)
    case NoVerdict => Fail(500, "Error getting all non-deleted task categories: ")
    case Denied => Fail(401, "Please Login again and pass token!")
    case Granted(_) => AllCategories(s)
  }

  // ---------------------------------------------------------------------------
  // Add, edit and delete

  /** AddTaskCategoryAsync: the caller becomes the creator. */
  method AddTaskCategoryAsync(db: DataContext, cfg: JwtConfig, now: int, header: string,
                              name: string, description: string, newId: string)
    returns (r: Response<()>)
    requires db.Valid()
    requires forall c :: c in db.categories ==> c.categoryId != newId
    modifies db
    ensures db.Valid()
    ensures match old(Authorize(db, cfg, now, header))
      case NoVerdict => r == Fail(500, "Error adding task category : ") && db.Snapshot() == old(db.Snapshot())
      case Denied => r == Fail(401, "Please Login again and pass token!") && db.Snapshot() == old(db.Snapshot())
      case Granted(uid) =>
        r == Response(true, 201, "Task category added successfully.", None)
        && db.Snapshot() == old(db.Snapshot()).(categories := old(db.categories)
             + [TaskCategory(newId, name, description, uid, None, None, false)])
  {
    var gate := Authorize(db, cfg, now, header);
    match gate
    case NoVerdict => r := Fail(500, "Error adding task category : ");
    case Denied => r := Fail(401, "Please Login again and pass token!");
    case Granted(uid) =>
      db.categories := db.categories + [TaskCategory(newId, name, description, uid, None, None, false)];
      r := Response(true, 201, "Task category added successfully.", None);
  }

  /** EditTaskCategoryAsync: FindAsync finds soft-deleted categories too. */
  method EditTaskCategoryAsync(db: DataContext, cfg: JwtConfig, now: int, header: string,
                               categoryId: string, name: string, description: string)
    returns (r: Response<()>)
    requires db.Valid()
    modifies db
    ensures db.Valid()
    ensures match old(Authorize(db, cfg, now, header))
      case NoVerdict => r == Fail(500, "Error updating task category :") && db.Snapshot() == old(db.Snapshot())
      case Denied => r == Fail(401, "Please Login again and pass token!") && db.Snapshot() == old(db.Snapshot())
      case Granted(uid) =>
        var i := FindCategory(old(db.categories), categoryId);
        if i.None? then r == Fail(404, "Task category not found.") && db.Snapshot() == old(db.Snapshot())
        else
          r == Response(true, 200, "Task category updated successfully.", None)
          && db.Snapshot() == old(db.Snapshot()).(categories := old(db.categories)[i.value :=
               old(db.categories)[i.value].(name := name, description := description, updatedById := Some(uid))])
  {
    var gate := Authorize(db, cfg, now, header);
    match gate
    case NoVerdict => r := Fail(500, "Error updating task category :");
    case Denied => r := Fail(401, "Please Login again and pass token!");
    case Granted(uid) =>
      var i := FindCategory(db.categories, categoryId);
      if i.None? {
        return Fail(404, "Task category not found.");
      }
      db.categories := db.categories[i.value :=
        db.categories[i.value].(name := name, description := description, updatedById := Some(uid))];
      r := Response(true, 200, "Task category updated successfully.", None);
  }

  function DeletedCategory(c: TaskCategory, uid: string): TaskCategory
  {
    c.(isDeleted := true, updatedById := Some(uid), deletedById := Some(uid))
  }

  /** DeleteTaskCategoryAsync: marks the category only; its tasks are left as they are. */
  method DeleteTaskCategoryAsync(db: DataContext, cfg: JwtConfig, now: int, header: string, categoryId: string)
    returns (r: Response<()>)
    requires db.Valid()
    modifies db
    ensures db.Valid()
    ensures match old(Authorize(db, cfg, now, header))
      case NoVerdict => r == Fail(500, "Error deleting task category :") && db.Snapshot() == old(db.Snapshot())
      case Denied => r == Fail(401, "Please Login again and pass token!") && db.Snapshot() == old(db.Snapshot())
      case Granted(uid) =>
        var i := FindCategory(old(db.categories), categoryId);
        if i.None? then r == Fail(404, "Task category not found.") && db.Snapshot() == old(db.Snapshot())
        else
          r == Response(true, 200, "Task category deleted successfully.", None)
          && db.Snapshot() == old(db.Snapshot()).(categories :=
               old(db.categories)[i.value := DeletedCategory(old(db.categories)[i.value], uid)])
  {
    var gate := Authorize(db, cfg, now, header);
    match gate
    case NoVerdict => r := Fail(500, "Error deleting task category :");
    case Denied => r := Fail(401, "Please Login again and pass token!");
    case Granted(uid) =>
      var i := FindCategory(db.categories, categoryId);
      if i.None? {
        return Fail(404, "Task category not found.");
      }
      db.categories := db.categories[i.value := DeletedCategory(db.categories[i.value], uid)];
      r := Response(true, 200, "Task category deleted successfully.", None);
  }

  /** Deleting a category answers 400 to GetTaskCategoryById afterwards, yet every task keeps
      the row the task listing shows for it, category name included, since the listing does not
      look at the category's deletion mark. */
  lemma DeletedCategoryStillNamesItsTasks(s: Store, i: int, uid: string, t: TaskEntity)
    requires UniqueCategoryIds(s.categories) && 0 <= i < |s.categories|
    ensures var after := s.(categories := s.categories[i := DeletedCategory(s.categories[i], uid)]);
            CategoryById(after, s.categories[i].categoryId).code == 400
            && TaskService.RowOf(after, t) == TaskService.RowOf(s, t)
  {
    var after := s.(categories := s.categories[i := DeletedCategory(s.categories[i], uid)]);
    assert UniqueCategoryIds(after.categories);
    forall c | c in after.categories && c.categoryId == s.categories[i].categoryId ensures c.isDeleted {
      var k :| 0 <= k < |after.categories| && after.categories[k] == c;
      assert k == i;
    }
    assert after.categories[i] in after.categories;
    var j := FindCategory(s.categories, t.categoryId);
    if j.Some? {
      FindOwnCategory(s.categories, j.value);
      FindOwnCategory(after.categories, j.value);
    } else {
      assert FindCategory(after.categories, t.categoryId).None?;
    }
  }
}
