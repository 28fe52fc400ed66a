// The persisted entities of the task manager and the database context that
// holds them (the Identity user store, refresh tokens, tasks, categories and
// comments).
module Domain {
  import opened Common

  /** An Identity user (AppUser). The stored credential stands in for the password hash.
      `normalizedUserName` is the NormalizedUserName column the name lookup reads; Identity sets
      it when it creates the user, and only its own update path would refresh it. */
  datatype User = User(id: string, userName: string, normalizedUserName: string, email: string, emailConfirmed: bool,
                       roles: seq<string>, firstName: string, lastName: string,
                       phoneNumber: string, password: string)

  /** CheckPasswordAsync / CheckPasswordSignInAsync. */
  predicate PasswordMatches(u: User, password: string)
  {
    u.password == password
  }

  predicate IsInRole(u: User, role: string)
  {
    role in u.roles
  }

  /** A row of the RefreshTokens table; `revoked` is the revocation time, if any. */
  datatype RefreshToken = RefreshToken(appUserId: string, token: string, expires: int,
                                       revoked: Option<int>)
  {
    predicate Active() { revoked.None? }
  }

  /** TaskEntity with the audit fields of BaseEntity. Times are seconds. */
  datatype TaskEntity = TaskEntity(taskId: string, taskName: string, priority: int, status: int,
                                   description: string, categoryId: string,
                                   assignedById: Option<string>, dueDate: int,
                                   createdById: string, updatedById: Option<string>,
                                   deletedById: Option<string>, isDeleted: bool)

  datatype TaskCategory = TaskCategory(categoryId: string, name: string, description: string,
                                       createdById: string, updatedById: Option<string>,
                                       deletedById: Option<string>, isDeleted: bool)

  datatype Comment = Comment(commentId: string, description: string, commentedById: string,
                             taskId: string, createdById: string, updatedById: Option<string>,
                             deletedById: Option<string>, isDeleted: bool)

  /** The position of the first element satisfying p (FirstOrDefault). */
  function FirstIndex<T>(s: seq<T>, p: T -> bool): (r: Option<nat>)
    ensures r.Some? ==> r.value < |s| && p(s[r.value])
    ensures r.Some? ==> forall j :: 0 <= j < r.value ==> !p(s[j])
    ensures r.None? <==> forall j :: 0 <= j < |s| ==> !p(s[j])
  {
    if |s| == 0 then None
    else if p(s[0]) then Some(0)
    else match FirstIndex(s[1..], p)
      case None => None
      case Some(k) => Some(k + 1)
  }

  /** UserManager.FindByIdAsync. */
  function FindById(users: seq<User>, id: string): (r: Option<User>)
    ensures r.Some? ==> r.value in users && r.value.id == id
    ensures r.None? <==> forall u :: u in users ==> u.id != id
  {
    match FirstIndex(users, (u: User) => u.id == id)
    case None => None
    case Some(i) => Some(users[i])
  }

  /** UserManager.FindByEmailAsync. */
  function FindByEmail(users: seq<User>, email: string): (r: Option<User>)
    ensures r.Some? ==> r.value in users && r.value.email == email
    ensures r.None? <==> forall u :: u in users ==> u.email != email
  {
    match FirstIndex(users, (u: User) => u.email == email)
    case None => None
    case Some(i) => Some(users[i])
  }

  /** UserManager.FindByNameAsync: it matches the stored NormalizedUserName, not UserName. */
  function FindByName(users: seq<User>, name: string): (r: Option<User>)
    ensures r.Some? ==> r.value in users && r.value.normalizedUserName == name
    ensures r.None? <==> forall u :: u in users ==> u.normalizedUserName != name
  {
    match FirstIndex(users, (u: User) => u.normalizedUserName == name)
    case None => None
    case Some(i) => Some(users[i])
  }

  /** The position of the user with this id. */
  function UserIndex(users: seq<User>, id: string): (r: Option<nat>)
    ensures r.Some? ==> r.value < |users| && users[r.value].id == id
    ensures r.None? <==> forall j :: 0 <= j < |users| ==> users[j].id != id
  {
    FirstIndex(users, (u: User) => u.id == id)
  }

  /** Identity's default AllowedUserNameCharacters. */
  const AllowedUserNameCharacters: string :=
    "abcdefghijklmnopqrstuvwxyzABCDEFGHIJKLMNOPQRSTUVWXYZ0123456789-._@+"

  /** UserValidator, which UserManager runs before it saves an existing user: the user name is
      not blank, uses only the allowed characters, and the name lookup for it finds nobody or this
      same user. E-mails are not checked, since unique e-mails are not required. */
  predicate AcceptsUser(users: seq<User>, u: User)
  {
    !IsBlank(u.userName)
    && (forall k :: 0 <= k < |u.userName| ==> u.userName[k] in AllowedUserNameCharacters)
    && (FindByName(users, u.userName).Some? ==> FindByName(users, u.userName).value.id == u.id)
  }

  /** UserManager's save of the stored row at i carrying the pending changes `changed` (the tail
      shared by UpdateAsync, ConfirmEmailAsync and ResetPasswordAsync): the validator checks
      `changed`, then NormalizedUserName is recomputed from UserName and the row is written. None
      when the validator refuses; nothing is written then. */
  function SaveUser(users: seq<User>, i: nat, changed: User): Option<seq<User>>
    requires i < |users|
  {
    if AcceptsUser(users, changed) then Some(users[i := changed.(normalizedUserName := changed.userName)])
    else None
  }

  /** After a save the validator accepted, the user's current name finds exactly that row, and,
      with unique ids, the lookup name the row held before no longer finds that user. */
  lemma SaveRefreshesNameLookup(users: seq<User>, i: nat, changed: User)
    requires UniqueUserIds(users) && i < |users| && changed.id == users[i].id
    requires AcceptsUser(users, changed)
    ensures var after := SaveUser(users, i, changed).value;
            FindByName(after, changed.userName) == Some(after[i])
    ensures var after := SaveUser(users, i, changed).value;
            users[i].normalizedUserName != changed.userName ==>
              forall u :: u in after && u.normalizedUserName == users[i].normalizedUserName ==> u.id != changed.id
  {
    var n := changed.userName;
    var after := SaveUser(users, i, changed).value;
    assert forall k :: 0 <= k < i ==> users[k].normalizedUserName != n by {
      var b := FindByName(users, n);
      if b.Some? {
        var m := FirstIndex(users, (u: User) => u.normalizedUserName == n).value;
        assert users[m].id == users[i].id;
        assert m == i;
      }
    }
    var a := FirstIndex(after, (u: User) => u.normalizedUserName == n);
    assert after[i].normalizedUserName == n;
    assert a.Some? && a.value == i;
    forall u | u in after && u.normalizedUserName == users[i].normalizedUserName
      ensures users[i].normalizedUserName != n ==> u.id != changed.id
    {
      var k :| 0 <= k < |after| && after[k] == u;
      if k != i {
        assert u == users[k];
      }
    }
  }

  /** A save that keeps the row's id and e-mail keeps both unique. */
  lemma SaveKeepsKeys(users: seq<User>, i: nat, changed: User)
    requires i < |users| && changed.id == users[i].id && changed.email == users[i].email
    requires AcceptsUser(users, changed)
    ensures UniqueUserIds(users) ==> UniqueUserIds(SaveUser(users, i, changed).value)
    ensures UniqueEmails(users) ==> UniqueEmails(SaveUser(users, i, changed).value)
  {
  }

  /** With unique ids and e-mails, each user is what the lookups by its own id and e-mail find. */
  lemma FindOwnUser(users: seq<User>, i: int)
    requires 0 <= i < |users|
    requires UniqueUserIds(users) && UniqueEmails(users)
    ensures FindById(users, users[i].id) == Some(users[i])
    ensures FindByEmail(users, users[i].email) == Some(users[i])
  {
    var a := FindById(users, users[i].id).value;
    var k :| 0 <= k < |users| && users[k] == a;
    assert k == i;
    var b := FindByEmail(users, users[i].email).value;
    var m :| 0 <= m < |users| && users[m] == b;
    assert m == i;
  }

  ghost predicate UniqueUserIds(users: seq<User>)
  {
    forall i, j :: 0 <= i < j < |users| ==> users[i].id != users[j].id
  }

  ghost predicate UniqueEmails(users: seq<User>)
  {
    forall i, j :: 0 <= i < j < |users| ==> users[i].email != users[j].email
  }

  /** Each user owns at most one unrevoked refresh-token row. */
  ghost predicate OneActivePerUser(rows: seq<RefreshToken>)
  {
    forall i, j :: 0 <= i < j < |rows| && rows[i].Active() && rows[j].Active()
      ==> rows[i].appUserId != rows[j].appUserId
  }

  ghost predicate UniqueTaskIds(tasks: seq<TaskEntity>)
  {
    forall i, j :: 0 <= i < j < |tasks| ==> tasks[i].taskId != tasks[j].taskId
  }

  ghost predicate UniqueCategoryIds(categories: seq<TaskCategory>)
  {
    forall i, j :: 0 <= i < j < |categories| ==> categories[i].categoryId != categories[j].categoryId
  }

  ghost predicate UniqueCommentIds(comments: seq<Comment>)
  {
    forall i, j :: 0 <= i < j < |comments| ==> comments[i].commentId != comments[j].commentId
  }

  /** The content of every table at one moment. */
  datatype Store = Store(users: seq<User>, refreshTokens: seq<RefreshToken>, tasks: seq<TaskEntity>,
                         categories: seq<TaskCategory>, comments: seq<Comment>)

  /** Keys are unique, e-mails are unique and no user holds two unrevoked refresh tokens. */
  ghost predicate Consistent(s: Store)
  {
    UniqueUserIds(s.users) && UniqueEmails(s.users) && OneActivePerUser(s.refreshTokens)
    && UniqueTaskIds(s.tasks) && UniqueCategoryIds(s.categories) && UniqueCommentIds(s.comments)
  }

  /** DbSet.FindAsync / FirstOrDefault by key. */
  function FindTask(tasks: seq<TaskEntity>, id: string): (r: Option<nat>)
    ensures r.Some? ==> r.value < |tasks| && tasks[r.value].taskId == id
    ensures r.None? <==> forall j :: 0 <= j < |tasks| ==> tasks[j].taskId != id
  {
    FirstIndex(tasks, (t: TaskEntity) => t.taskId == id)
  }

  function FindCategory(categories: seq<TaskCategory>, id: string): (r: Option<nat>)
    ensures r.Some? ==> r.value < |categories| && categories[r.value].categoryId == id
    ensures r.None? <==> forall j :: 0 <= j < |categories| ==> categories[j].categoryId != id
  {
    FirstIndex(categories, (c: TaskCategory) => c.categoryId == id)
  }

  /** With unique keys, the entity at position i is the one its key finds. */
  lemma FindOwnTask(tasks: seq<TaskEntity>, i: int)
    requires UniqueTaskIds(tasks) && 0 <= i < |tasks|
    ensures FindTask(tasks, tasks[i].taskId) == Some(i)
  {
  }

  lemma FindOwnCategory(categories: seq<TaskCategory>, i: int)
    requires UniqueCategoryIds(categories) && 0 <= i < |categories|
    ensures FindCategory(categories, categories[i].categoryId) == Some(i)
  {
  }

  /** The EF Core DataContext together with the Identity user store it backs. Each table is a
      sequence the services reassign when they save changes. */
  class DataContext {
    var users: seq<User>
    var refreshTokens: seq<RefreshToken>
    var tasks: seq<TaskEntity>
    var categories: seq<TaskCategory>
    var comments: seq<Comment>

    function Snapshot(): Store
      reads this
    {
      Store(users, refreshTokens, tasks, categories, comments)
    }

    ghost predicate Valid()
      reads this
    {
      Consistent(Snapshot())
    }

    constructor()
      ensures Valid()
      ensures users == [] && refreshTokens == [] && tasks == [] && categories == [] && comments == []
    {
      users := [];
      refreshTokens := [];
      tasks := [];
      categories := [];
      comments := [];
    }
  }
}
