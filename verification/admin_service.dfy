// AdminService: per-user views of the live tasks, grouped by the user who
// assigned them, and the self-service update of a user's names.
module AdminService {
  import opened Common
  import opened Domain
  import opened Jwt
  import opened TokenService
  import TaskService

  /** CommentDTO: the commenter's user name (null when the commenter is not a user) and the text. */
  datatype AdminComment = AdminComment(commentedBy: Option<string>, description: string)

  /** TaskDTO. */
  datatype AdminTask = AdminTask(taskName: string, description: string, dueDate: int, assignedBy: string,
                                 categoryName: Option<string>, comments: seq<AdminComment>)

  /** UserDetailsDTO. */
  datatype UserDetails = UserDetails(firstName: string, lastName: string, userName: string, email: string,
                                     tasks: seq<AdminTask>)

  /** CommentDTO of one comment; the author's name is None when no user has the author's id. */
  function CommentOf(users: seq<User>, c: Comment): AdminComment
  {
    AdminComment(match FindById(users, c.commentedById) case None => None case Some(u) => Some(u.userName),
                 c.description)
  }

  /** The projection of one task assigned by `assigner`; its comments are all comments on it. */
  function AdminTaskOf(s: Store, assigner: User, t: TaskEntity): AdminTask
  {
    var cs := TaskService.CommentsOn(s.comments, t.taskId);
    var category := FindCategory(s.categories, t.categoryId);
    AdminTask(t.taskName, t.description, t.dueDate, assigner.userName,
              if category.Some? then Some(s.categories[category.value].name) else None,
              seq(|cs|, k requires 0 <= k < |cs| => CommentOf(s.users, cs[k])))
  }

  /** UserDetailsDTO of user u and the tasks listed for u: u's names and e-mail, and one entry per
      task, in order, naming u as assigner and holding one line per comment on the task. */
  function DetailsOf(s: Store, u: User, tasks: seq<TaskEntity>): (r: UserDetails)
    ensures r.email == u.email && r.userName == u.userName && |r.tasks| == |tasks|
    ensures forall k :: 0 <= k < |tasks| ==>
      r.tasks[k].taskName == tasks[k].taskName && r.tasks[k].assignedBy == u.userName
      && |r.tasks[k].comments| == |TaskService.CommentsOn(s.comments, tasks[k].taskId)|
  {
    UserDetails(u.firstName, u.lastName, u.userName, u.email,
                seq(|tasks|, k requires 0 <= k < |tasks| => AdminTaskOf(s, u, tasks[k])))
  }

  /** The users EF Core is tracking once the tasks are loaded: the caller, whom the gate's
      FindByEmailAsync loaded, and the assigners that Include(AssignedByAppUser) loaded. The
      queries do not include a comment's CommentedAppUser, so only these users fill it. */
  predicate Tracked(caller: string, tasks: seq<TaskEntity>, id: string)
  {
    id == caller || exists t :: t in tasks && t.assignedById == Some(id)
  }

  /** Every comment on the loaded tasks, deleted ones included, has a tracked author with a user
      row; otherwise reading CommentedAppUser.UserName throws a null-reference exception. */
  predicate CommentersLoaded(s: Store, caller: string, tasks: seq<TaskEntity>)
  {
    forall t, c :: t in tasks && c in s.comments && c.taskId == t.taskId ==>
      Tracked(caller, tasks, c.commentedById) && FindById(s.users, c.commentedById).Some?
  }

  /** When the authors are loaded, every comment line of the details names its author. */
  lemma LoadedCommentsNamed(s: Store, caller: string, u: User, tasks: seq<TaskEntity>, k: int, m: int)
    requires CommentersLoaded(s, caller, tasks) && 0 <= k < |tasks|
    requires 0 <= m < |TaskService.CommentsOn(s.comments, tasks[k].taskId)|
    ensures var c := TaskService.CommentsOn(s.comments, tasks[k].taskId)[m];
            var line := DetailsOf(s, u, tasks).tasks[k].comments[m];
            line.description == c.description && line.commentedBy.Some?
            && exists a :: a in s.users && a.id == c.commentedById && a.userName == line.commentedBy.value
  {
    var cs := TaskService.CommentsOn(s.comments, tasks[k].taskId);
    assert cs[m] in cs && tasks[k] in tasks;
    assert DetailsOf(s, u, tasks).tasks[k] == AdminTaskOf(s, u, tasks[k]);
  }

  // ---------------------------------------------------------------------------
  // GetAllUser

  /** The position of the first occurrence of x. */
  function FirstPos(ids: seq<string>, x: string): (r: nat)
    requires x in ids
    ensures r < |ids| && ids[r] == x && forall j :: 0 <= j < r ==> ids[j] != x
  {
    FirstIndex(ids, (y: string) => y == x).value
  }

  /** In a prefix, an element first occurs where it first occurs in the whole sequence. */
  lemma FirstPosInPrefix(ids: seq<string>, n: nat, x: string)
    requires n <= |ids| && x in ids[..n]
    ensures FirstPos(ids[..n], x) == FirstPos(ids, x)
  {
    var p := FirstPos(ids[..n], x);
    var q := FirstPos(ids, x);
    assert ids[p] == x;
    if q < p {
      assert ids[..n][q] == x;
    }
  }

  /** The distinct elements of a sequence in order of first occurrence (Distinct / GroupBy keys). */
  function Distinct(ids: seq<string>): (r: seq<string>)
    ensures forall x :: x in r <==> x in ids
    ensures forall i, j :: 0 <= i < j < |r| ==> r[i] != r[j]
    ensures forall i, j :: 0 <= i < j < |r| ==> FirstPos(ids, r[i]) < FirstPos(ids, r[j])
    ensures |r| <= |ids|
  {
    if |ids| == 0 then []
    else
      var n := |ids| - 1;
      var front := Distinct(ids[..n]);
      assert ids == ids[..n] + [ids[n]];
      assert forall x :: x in front ==> FirstPos(ids[..n], x) == FirstPos(ids, x) && FirstPos(ids, x) < n by {
        forall x | x in front ensures FirstPos(ids[..n], x) == FirstPos(ids, x) && FirstPos(ids, x) < n {
          FirstPosInPrefix(ids, n, x);
        }
      }
      if ids[n] in front then front
      else
        assert FirstPos(ids, ids[n]) == n;
        front + [ids[n]]
  }

  /** The assigner of each task, in table order. */
  function Assigners(tasks: seq<TaskEntity>): (r: seq<string>)
    requires forall t :: t in tasks ==> t.assignedById.Some?
    ensures |r| == |tasks| && forall i :: 0 <= i < |r| ==> r[i] == tasks[i].assignedById.value
  {
    seq(|tasks|, i requires 0 <= i < |tasks| => tasks[i].assignedById.value)
  }

  /** The tasks of one assigner, in table order. */
  function AssignedBy(tasks: seq<TaskEntity>, userId: string): (r: seq<TaskEntity>)
    ensures forall t :: t in r <==> t in tasks && t.assignedById == Some(userId)
  {
    Filter(tasks, (t: TaskEntity) => t.assignedById == Some(userId))
  }

  /** Every live task has an assigner who is a registered user; otherwise the group key is null
      and reading its names throws. */
  predicate AllAssigned(s: Store)
  {
    forall t :: t in TaskService.LiveTasks(s.tasks) ==>
      t.assignedById.Some? && FindById(s.users, t.assignedById.value).Some?
  }

  /** The group of one assigner: the assigner's user row and the live tasks they assigned. */
  function GroupFor(s: Store, assigner: string): (r: UserDetails)
    requires FindById(s.users, assigner).Some?
    ensures r.email == FindById(s.users, assigner).value.email
    ensures |r.tasks| == |AssignedBy(TaskService.LiveTasks(s.tasks), assigner)|
  {
    DetailsOf(s, FindById(s.users, assigner).value, AssignedBy(TaskService.LiveTasks(s.tasks), assigner))
  }

  /** The GroupBy keys: the assigners of the live tasks, each once, in order of first occurrence. */
  function GroupKeys(s: Store): (r: seq<string>)
    requires AllAssigned(s)
    ensures forall i, j :: 0 <= i < j < |r| ==> r[i] != r[j]
    ensures forall k :: 0 <= k < |r| ==> r[k] in Assigners(TaskService.LiveTasks(s.tasks))
    ensures forall i, j :: 0 <= i < j < |r| ==>
      FirstPos(Assigners(TaskService.LiveTasks(s.tasks)), r[i]) < FirstPos(Assigners(TaskService.LiveTasks(s.tasks)), r[j])
    ensures forall t :: t in TaskService.LiveTasks(s.tasks) ==> t.assignedById.value in r
    ensures forall k :: 0 <= k < |r| ==> exists t :: t in TaskService.LiveTasks(s.tasks) && t.assignedById == Some(r[k])
    ensures forall k :: 0 <= k < |r| ==> FindById(s.users, r[k]).Some?
  {
    var r := Distinct(Assigners(TaskService.LiveTasks(s.tasks)));
    KeysCoverLiveTasks(s, r);
    r
  }

  /** The distinct assigners are exactly the assigners of the live tasks, all registered. */
  lemma KeysCoverLiveTasks(s: Store, r: seq<string>)
    requires AllAssigned(s) && r == Distinct(Assigners(TaskService.LiveTasks(s.tasks)))
    ensures forall t :: t in TaskService.LiveTasks(s.tasks) ==> t.assignedById.value in r
    ensures forall k :: 0 <= k < |r| ==> exists t :: t in TaskService.LiveTasks(s.tasks) && t.assignedById == Some(r[k])
    ensures forall k :: 0 <= k < |r| ==> FindById(s.users, r[k]).Some?
  {
    var live := TaskService.LiveTasks(s.tasks);
    var ids := Assigners(live);
    forall t | t in live ensures t.assignedById.value in r {
      var n :| 0 <= n < |live| && live[n] == t;
      assert ids[n] == t.assignedById.value;
    }
    forall k | 0 <= k < |r| ensures exists t :: t in live && t.assignedById == Some(r[k]) && FindById(s.users, r[k]).Some? {
      assert r[k] in ids;
      var n :| 0 <= n < |ids| && ids[n] == r[k];
      assert live[n] in live;
    }
  }

  /** One group per assigner of a live task, in order of first occurrence: every live task is in
      the group of its assigner and no group is empty. */
  function Groups(s: Store): (r: seq<UserDetails>)
    requires AllAssigned(s)
    ensures |r| == |GroupKeys(s)|
    ensures forall k :: 0 <= k < |r| ==> r[k] == GroupFor(s, GroupKeys(s)[k])
  {
    var keys := GroupKeys(s);
    seq(|keys|, k requires 0 <= k < |keys| => GroupFor(s, keys[k]))
  }

  /** GetAllUser past a gate granting `caller`. The list is never null, so the call answers 200
      unless building it throws: a live task without a registered assigner gives a null group
      key, and a comment on a live task by an author EF Core is not tracking gives a null
      CommentedAppUser. */
  function AllUsers(s: Store, caller: string): (r: Response<seq<UserDetails>>)
    ensures !(AllAssigned(s) && CommentersLoaded(s, caller, TaskService.LiveTasks(s.tasks))) ==>
      r == Response(false, 500, "Error occured while getting user ", Some([]))
    ensures AllAssigned(s) && CommentersLoaded(s, caller, TaskService.LiveTasks(s.tasks)) ==>
      r.code == 200 && r.status && r.data == Some(Groups(s))
  {
    if !(AllAssigned(s) && CommentersLoaded(s, caller, TaskService.LiveTasks(s.tasks))) then
      Response(false, 500, "Error occured while getting user ", Some([]))
    else Response(true, 200, "User List found sucessfully", Some(Groups(s)))
  }

  /** A comment on a live task by someone who is neither the caller nor the assigner of a live
      task makes the listing fail with 500. */
  lemma ForeignCommenterFailsListing(s: Store, caller: string, t: TaskEntity, c: Comment)
    requires t in s.tasks && !t.isDeleted && c in s.comments && c.taskId == t.taskId
    requires c.commentedById != caller
    requires forall t' :: t' in s.tasks && !t'.isDeleted ==> t'.assignedById != Some(c.commentedById)
    ensures AllUsers(s, caller).code == 500
  {
    assert t in TaskService.LiveTasks(s.tasks);
    assert !Tracked(caller, TaskService.LiveTasks(s.tasks), c.commentedById);
  }

  /** With unique e-mails, the groups belong to distinct users. */
  lemma GroupsHaveDistinctUsers(s: Store)
    requires UniqueEmails(s.users) && AllAssigned(s)
    ensures var r := Groups(s);
            forall i, j :: 0 <= i < j < |r| ==> r[i].email != r[j].email
  {
    var keys := GroupKeys(s);
    var r := Groups(s);
    forall i, j | 0 <= i < j < |r| ensures r[i].email != r[j].email {
      DistinctUsersDistinctEmails(s.users, FindById(s.users, keys[i]).value, FindById(s.users, keys[j]).value);
    }
  }

  lemma DistinctUsersDistinctEmails(users: seq<User>, a: User, b: User)
    requires UniqueEmails(users) && a in users && b in users && a.id != b.id
    ensures a.email != b.email
  {
    var m :| 0 <= m < |users| && users[m] == a;
    var n :| 0 <= n < |users| && users[n] == b;
  }

  /** Every live task is listed under its own assigner. */
  lemma EveryLiveTaskGrouped(s: Store, t: TaskEntity)
    requires AllAssigned(s) && t in TaskService.LiveTasks(s.tasks)
    ensures t in AssignedBy(TaskService.LiveTasks(s.tasks), t.assignedById.value)
    ensures exists k :: 0 <= k < |Groups(s)| && Groups(s)[k] == GroupFor(s, t.assignedById.value)
  {
    var keys := GroupKeys(s);
    var k :| 0 <= k < |keys| && keys[k] == t.assignedById.value;
    assert Groups(s)[k] == GroupFor(s, keys[k]);
  }

  /** No group is empty. */
  lemma NoEmptyGroup(s: Store, k: int)
    requires AllAssigned(s) && 0 <= k < |Groups(s)|
    ensures |Groups(s)[k].tasks| > 0
  {
    var keys := GroupKeys(s);
    var live := TaskService.LiveTasks(s.tasks);
    var t :| t in live && t.assignedById == Some(keys[k]);
    assert t in AssignedBy(live, keys[k]);
  }

  function GetAllUser(s: Store, cfg: JwtConfig, now: int, header: string): (r: Response<seq<UserDetails>>)
    ensures GateAt(s, cfg, now, header).NoVerdict? ==>
      r == Response(false, 500, "Error occured while getting user ", Some([]))
    ensures GateAt(s, cfg, now, header).Denied? ==>
      r == Response(false, 401, "Invalid token , or token is revoked ", Some([]))
    ensures GateAt(s, cfg, now, header).Granted? ==> r == AllUsers(s, GateAt(s, cfg, now, header).userId)
  {
    match GateAt(s, cfg, now, header)
    case NoVerdict => Response(false, 500, "Error occured while getting user ", Some([]))
    case Denied => Response(false, 401, "Invalid token , or token is revoked ", Some([]))
    case Granted(uid) => AllUsers(s, uid)
  }

  // ---------------------------------------------------------------------------
  // GetUserDetails

  /** GetUserDetails past a gate granting `uid`: the live tasks the caller assigned, joined with
      the caller's user row; 404 when there are none. Only the caller is tracked as a user, so a
      comment by anyone else on those tasks throws, and the call answers 500. */
  function UserDetailsFor(s: Store, uid: string): (r: Response<UserDetails>)
    ensures r.code == 404 <==>
      FindById(s.users, uid).None? || !exists t :: t in s.tasks && !t.isDeleted && t.assignedById == Some(uid)
    ensures r.code == 404 ==> r == Fail(404, "User not found or no tasks assigned")
    ensures r.code == 200 <==>
      FindById(s.users, uid).Some? && (exists t :: t in s.tasks && !t.isDeleted && t.assignedById == Some(uid))
      && CommentersLoaded(s, uid, AssignedBy(TaskService.LiveTasks(s.tasks), uid))
    ensures r.code != 200 && r.code != 404 ==> r == Fail(500, "Error occurred while getting user details: ")
    ensures r.code == 200 ==>
      r.data.Some? && r.data.value == DetailsOf(s, FindById(s.users, uid).value,
                                                AssignedBy(TaskService.LiveTasks(s.tasks), uid))
  {
    var mine := AssignedBy(TaskService.LiveTasks(s.tasks), uid);
    match FindById(s.users, uid)
    case None => Fail(404, "User not found or no tasks assigned")
    case Some(u) =>
      if |mine| == 0 then Fail(404, "User not found or no tasks assigned")
      else if !CommentersLoaded(s, uid, mine) then Fail(500, "Error occurred while getting user details: ")
      else
        assert mine[0] in mine;
        Response(true, 200, "User details retrieved successfully", Some(DetailsOf(s, u, mine)))
  }

  /** The caller's details are available only while every comment on the caller's live tasks is
      the caller's own. */
  lemma DetailsNeedOwnComments(s: Store, uid: string, t: TaskEntity, c: Comment)
    requires t in s.tasks && !t.isDeleted && t.assignedById == Some(uid)
    requires c in s.comments && c.taskId == t.taskId
    ensures UserDetailsFor(s, uid).code == 200 ==> c.commentedById == uid
  {
    var mine := AssignedBy(TaskService.LiveTasks(s.tasks), uid);
    assert t in mine;
    if UserDetailsFor(s, uid).code == 200 {
      assert Tracked(uid, mine, c.commentedById);
      assert forall t' :: t' in mine ==> t'.assignedById == Some(uid);
    }
  }

  function GetUserDetails(s: Store, cfg: JwtConfig, now: int, header: string): (r: Response<UserDetails>)
    ensures GateAt(s, cfg, now, header).NoVerdict? ==> r == Fail(500, "Error occurred while getting user details: ")
    ensures GateAt(s, cfg, now, header).Denied? ==> r == Fail(401, "Invalid token, or token is revoked")
    ensures GateAt(s, cfg, now, header).Granted? ==> r == UserDetailsFor(s, GateAt(s, cfg, now, header).userId)
  {
    match GateAt(s, cfg, now, header)
    case NoVerdict => Fail(500, "Error occurred while getting user details: ")
    case Denied => Fail(401, "Invalid token, or token is revoked")
    case Granted(uid) => UserDetailsFor(s, uid)
  }

  // ---------------------------------------------------------------------------
  // UpdateUser

  function Renamed(u: User, firstName: string, lastName: string, userName: string): User
  {
    u.(firstName := firstName, lastName := lastName, userName := userName)
  }

  /** UpdateUser: only the caller may update, and only their own row; there is no administrator
      override. Only the first name, last name and user name change. */
  method UpdateUser(db: DataContext, cfg: JwtConfig, now: int, header: string, userId: string,
                    firstName: string, lastName: string, userName: string)
    returns (r: Response<()>)
    requires db.Valid()
    modifies db
    ensures db.Valid()
    ensures match old(Authorize(db, cfg, now, header))
      case NoVerdict => r == Fail(500, "Error ocurred while updating user : ") && db.Snapshot() == old(db.Snapshot())
      case Denied => r == Fail(401, " Invalid token or revoked token ") && db.Snapshot() == old(db.Snapshot())
      case Granted(uid) =>
        var i := FirstIndex(old(db.users), (u: User) => u.id == userId);
        if userId != uid then r == Fail(403, "User not Authorized to update") && db.Snapshot() == old(db.Snapshot())
        else if i.None? then r == Fail(404, " Existing User not found ") && db.Snapshot() == old(db.Snapshot())
        else
          r == Response(true, 200, " User updated successfully ", None)
          && db.Snapshot() == old(db.Snapshot()).(users :=
               old(db.users)[i.value := Renamed(old(db.users)[i.value], firstName, lastName, userName)])
  {
    var gate := Authorize(db, cfg, now, header);
    match gate
    case NoVerdict => r := Fail(500, "Error ocurred while updating user : ");
    case Denied => r := Fail(401, " Invalid token or revoked token ");
    case Granted(uid) =>
      if userId != uid {
        return Fail(403, "User not Authorized to update");
      }
      var i := FirstIndex(db.users, (u: User) => u.id == userId);
      if i.None? {
        return Fail(404, " Existing User not found ");
      }
      db.users := db.users[i.value := Renamed(db.users[i.value], firstName, lastName, userName)];
      r := Response(true, 200, " User updated successfully ", None);
  }

  /** UpdateUser writes UserName through the data context, bypassing UserManager.UpdateAsync, so
      the NormalizedUserName that FindByNameAsync reads keeps the old name until the user's next
      save through UserManager (sign-in, token refresh, e-mail confirmation, password reset).
      Until then a rename changes whom no name lookup finds: the new name finds nobody it did not
      find before, while the old name still finds the renamed user. */
  lemma RenameLeavesNameLookupStale(users: seq<User>, j: int, firstName: string, lastName: string,
                                    userName: string, name: string)
    requires 0 <= j < |users|
    ensures var after := users[j := Renamed(users[j], firstName, lastName, userName)];
            (FindByName(after, name).None? <==> FindByName(users, name).None?)
            && (FindByName(after, name).Some? ==> FindByName(after, name).value.id == FindByName(users, name).value.id)
    ensures var after := users[j := Renamed(users[j], firstName, lastName, userName)];
            (forall k :: 0 <= k < j ==> users[k].normalizedUserName != users[j].normalizedUserName)
            ==> FindByName(after, users[j].normalizedUserName) == Some(after[j]) && after[j].userName == userName
  {
    var after := users[j := Renamed(users[j], firstName, lastName, userName)];
    var p := (u: User) => u.normalizedUserName == name;
    assert forall k :: 0 <= k < |users| ==> (p(after[k]) <==> p(users[k]));
    var a := FirstIndex(after, p);
    var b := FirstIndex(users, p);
    if a.Some? {
      assert b.Some?;
      assert a.value == b.value;
    }
    var q := (u: User) => u.normalizedUserName == users[j].normalizedUserName;
    assert forall k :: 0 <= k < |users| ==> (q(after[k]) <==> q(users[k]));
    if forall k :: 0 <= k < j ==> users[k].normalizedUserName != users[j].normalizedUserName {
      var d := FirstIndex(after, q);
      assert q(after[j]);
      assert d.Some? && d.value == j;
    }
  }

  /** The next save through UserManager that the validator accepts (the new name is well formed
      and no other user holds it as lookup name) makes the new name find the renamed user, and
      the old lookup name stops finding them. */
  lemma RenameTakesEffectOnNextSave(users: seq<User>, j: int, firstName: string, lastName: string,
                                    userName: string)
    requires UniqueUserIds(users) && 0 <= j < |users|
    ensures var after := users[j := Renamed(users[j], firstName, lastName, userName)];
            AcceptsUser(after, after[j]) ==>
              var saved := SaveUser(after, j, after[j]).value;
              FindByName(saved, userName) == Some(saved[j]) && saved[j].userName == userName
              && (users[j].normalizedUserName != userName ==>
                    forall u :: u in saved && u.normalizedUserName == users[j].normalizedUserName
                                ==> u.id != users[j].id)
  {
    var after := users[j := Renamed(users[j], firstName, lastName, userName)];
    if AcceptsUser(after, after[j]) {
      assert UniqueUserIds(after) by {
        forall k | 0 <= k < |after| ensures after[k].id == users[k].id { }
      }
      SaveRefreshesNameLookup(after, j, after[j]);
    }
  }
}
