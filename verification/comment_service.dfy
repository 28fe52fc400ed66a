// CommentService: comments on tasks, soft-deleted. Every operation first
// consults the gate; a missing verdict makes the read of Data.Status throw,
// which the operation's catch turns into a 500.
module CommentService {
  import opened Common
  import opened Domain
  import opened Jwt
  import opened TokenService

  /** A comment with the task it belongs to (the source of GetAllCommentDto). */
  datatype CommentView = CommentView(comment: Comment, task: TaskEntity)

  /** The comment is not deleted and its task exists and is not deleted. */
  predicate Visible(tasks: seq<TaskEntity>, c: Comment)
  {
    !c.isDeleted && FindTask(tasks, c.taskId).Some? && !tasks[FindTask(tasks, c.taskId).value].isDeleted
  }

  function ViewOf(tasks: seq<TaskEntity>, c: Comment): CommentView
    requires Visible(tasks, c)
  {
    CommentView(c, tasks[FindTask(tasks, c.taskId).value])
  }

  /** The visible comments, each with its task. */
  function VisibleComments(tasks: seq<TaskEntity>, comments: seq<Comment>): (r: seq<CommentView>)
    ensures |r| <= |comments|
    ensures forall i :: 0 <= i < |r| ==>
      r[i].comment in comments && Visible(tasks, r[i].comment) && r[i] == ViewOf(tasks, r[i].comment)
    ensures forall c :: c in comments && Visible(tasks, c) ==> ViewOf(tasks, c) in r
  {
    if |comments| == 0 then []
    else
      var rest := VisibleComments(tasks, comments[1..]);
      assert forall c :: c in comments[1..] ==> c in comments;
      if Visible(tasks, comments[0]) then [ViewOf(tasks, comments[0])] + rest else rest
  }

  /** The live comment with this id (not deleted). */
  function FindLive(comments: seq<Comment>, commentId: string): (r: Option<nat>)
    ensures r.Some? ==> r.value < |comments| && comments[r.value].commentId == commentId
                        && !comments[r.value].isDeleted
    ensures r.None? <==> forall j :: 0 <= j < |comments| ==>
                           comments[j].commentId != commentId || comments[j].isDeleted
  {
    FirstIndex(comments, (c: Comment) => c.commentId == commentId && !c.isDeleted)
  }

  /** AddCommentAsync: the caller becomes both author and creator. */
  method AddCommentAsync(db: DataContext, cfg: JwtConfig, now: int, header: string,
                         taskId: string, description: string, newId: string)
    returns (r: Response<()>)
    requires db.Valid()
    requires forall c :: c in db.comments ==> c.commentId != newId
    modifies db
    ensures db.Valid()
    ensures match old(Authorize(db, cfg, now, header))
      case NoVerdict => r == Fail(500, "Error adding comment: ") && db.Snapshot() == old(db.Snapshot())
      case Denied => r == Fail(401, "Please Login again and pass token!") && db.Snapshot() == old(db.Snapshot())
      case Granted(uid) =>
        r == Response(true, 201, "Comment added successfully", None)
        && db.Snapshot() == old(db.Snapshot()).(comments := old(db.comments)
             + [Comment(newId, description, uid, taskId, uid, None, None, false)])
  {
    var gate := Authorize(db, cfg, now, header);
    match gate
    case NoVerdict => r := Fail(500, "Error adding comment: ");
    case Denied => r := Fail(401, "Please Login again and pass token!");
    case Granted(uid) =>
      db.comments := db.comments + [Comment(newId, description, uid, taskId, uid, None, None, false)];
      r := Response(true, 201, "Comment added successfully", None);
  }

  /** The fields UpdateCommentAsync writes: the caller becomes the comment's author. */
  function Edited(c: Comment, description: string, uid: string): Comment
  {
    c.(description := description, commentedById := uid, updatedById := Some(uid))
  }

  /** UpdateCommentAsync: any granted caller may edit any live comment; there is no author check. */
  method UpdateCommentAsync(db: DataContext, cfg: JwtConfig, now: int, header: string,
                            commentId: string, description: string)
    returns (r: Response<()>)
    requires db.Valid()
    modifies db
    ensures db.Valid()
    ensures match old(Authorize(db, cfg, now, header))
      case NoVerdict => r == Fail(500, "Error updating comment: ") && db.Snapshot() == old(db.Snapshot())
      case Denied => r == Fail(401, "Please Login again and pass token!") && db.Snapshot() == old(db.Snapshot())
      case Granted(uid) =>
        var i := FindLive(old(db.comments), commentId);
        if i.None? then r == Fail(404, "Comment not found.") && db.Snapshot() == old(db.Snapshot())
        else
          r == Response(true, 200, "Comment updated successfully", None)
          && db.Snapshot() == old(db.Snapshot()).(comments :=
               old(db.comments)[i.value := Edited(old(db.comments)[i.value], description, uid)])
  {
    var gate := Authorize(db, cfg, now, header);
    match gate
    case NoVerdict => r := Fail(500, "Error updating comment: ");
    case Denied => r := Fail(401, "Please Login again and pass token!");
    case Granted(uid) =>
      var i := FindLive(db.comments, commentId);
      if i.None? {
        return Fail(404, "Comment not found.");
      }
      db.comments := db.comments[i.value := Edited(db.comments[i.value], description, uid)];
      r := Response(true, 200, "Comment updated successfully", None);
  }

  /** The fields DeleteCommentAsync writes. */
  function Deleted(c: Comment, uid: string): Comment
  {
    c.(isDeleted := true, updatedById := Some(uid), deletedById := Some(uid))
  }

  /** DeleteCommentAsync: requester, then the live comment, then author-or-admin. */
  method DeleteCommentAsync(db: DataContext, cfg: JwtConfig, now: int, header: string, commentId: string)
    returns (r: Response<()>)
    requires db.Valid()
    modifies db
    ensures db.Valid()
    ensures match old(Authorize(db, cfg, now, header))
      case NoVerdict => r == Fail(500, "Error deleting comment: ") && db.Snapshot() == old(db.Snapshot())
      case Denied => r == Fail(401, "Please Login again and pass token!") && db.Snapshot() == old(db.Snapshot())
      case Granted(uid) =>
        var requester := FindById(old(db.users), uid);
        var i := FindLive(old(db.comments), commentId);
        if requester.None? then r == Fail(404, "Requesting User not found.") && db.Snapshot() == old(db.Snapshot())
        else if i.None? then r == Fail(404, "Comment not found.") && db.Snapshot() == old(db.Snapshot())
        else if !(old(db.comments)[i.value].commentedById == uid || IsInRole(requester.value, "Admin")) then
          r == Fail(403, "User not authorized to delete comment") && db.Snapshot() == old(db.Snapshot())
        else
          r == Response(true, 200, "Comment deleted successfully", None)
          && db.Snapshot() == old(db.Snapshot()).(comments :=
               old(db.comments)[i.value := Deleted(old(db.comments)[i.value], uid)])
  {
    var gate := Authorize(db, cfg, now, header);
    match gate
    case NoVerdict => r := Fail(500, "Error deleting comment: ");
    case Denied => r := Fail(401, "Please Login again and pass token!");
    case Granted(uid) =>
      var requester := FindById(db.users, uid);
      if requester.None? {
        return Fail(404, "Requesting User not found.");
      }
      var isAdmin := IsInRole(requester.value, "Admin");
      var i := FindLive(db.comments, commentId);
      if i.None? {
        return Fail(404, "Comment not found.");
      }
      if !(db.comments[i.value].commentedById == uid || isAdmin) {
        return Fail(403, "User not authorized to delete comment");
      }
      db.comments := db.comments[i.value := Deleted(db.comments[i.value], uid)];
      r := Response(true, 200, "Comment deleted successfully", None);
  }

  /** GetCommentByIdAsync. */
  function GetCommentByIdAsync(s: Store, cfg: JwtConfig, now: int, header: string, commentId: string)
    : (r: Response<CommentView>)
    ensures GateAt(s, cfg, now, header).NoVerdict? ==> r == Fail(500, "Error getting comment by ID: ")
    ensures GateAt(s, cfg, now, header).Denied? ==> r == Fail(401, "Please Login again and pass token!")
    ensures GateAt(s, cfg, now, header).Granted? ==>
      (r.code == 200 <==> exists c :: c in s.comments && c.commentId == commentId && Visible(s.tasks, c))
    ensures r.code == 200 ==>
      r.data.Some? && r.data.value.comment in s.comments && r.data.value.comment.commentId == commentId
      && Visible(s.tasks, r.data.value.comment) && r.data.value == ViewOf(s.tasks, r.data.value.comment)
    ensures r.code != 200 ==> r.data.None?
  {
    match GateAt(s, cfg, now, header)
    case NoVerdict => Fail(500, "Error getting comment by ID: ")
    case Denied => Fail(401, "Please Login again and pass token!")
    case Granted(_) =>
      match FirstIndex(s.comments, (c: Comment) => c.commentId == commentId && Visible(s.tasks, c))
      case None => Fail(404, "Comment not found.")
      case Some(i) => Response(true, 200, "Successfully got a comment", Some(ViewOf(s.tasks, s.comments[i])))
  }

  /** GetAllCommentsAsync: every visible comment; an empty list is still a 200. */
  function GetAllCommentsAsync(s: Store, cfg: JwtConfig, now: int, header: string)
    : (r: Response<seq<CommentView>>)
    ensures GateAt(s, cfg, now, header).NoVerdict? ==> r == Fail(500, "Error getting all comments: ")
    ensures GateAt(s, cfg, now, header).Denied? ==> r == Fail(401, "Please Login again and pass token!")
    ensures GateAt(s, cfg, now, header).Granted? ==>
      r.code == 200 && r.data.Some?
      && (forall v :: v in r.data.value ==> v.comment in s.comments && Visible(s.tasks, v.comment))
      && (forall c :: c in s.comments && Visible(s.tasks, c) ==> ViewOf(s.tasks, c) in r.data.value)
  {
    match GateAt(s, cfg, now, header)
    case NoVerdict => Fail(500, "Error getting all comments: ")
    case Denied => Fail(401, "Please Login again and pass token!")
    case Granted(_) => Response(true, 200, "Successfully got all comments", Some(VisibleComments(s.tasks, s.comments)))
  }

  /** Editing a live comment hands it to the editor: afterwards the same comment is still the live
      one with that id and its author is the editor, so the editor may delete it without being an
      administrator. */
  lemma EditMakesEditorAuthor(comments: seq<Comment>, i: int, description: string, uid: string)
    requires UniqueCommentIds(comments) && 0 <= i < |comments| && !comments[i].isDeleted
    ensures var after := comments[i := Edited(comments[i], description, uid)];
            FindLive(after, comments[i].commentId) == Some(i) && after[i].commentedById == uid
  {
    var after := comments[i := Edited(comments[i], description, uid)];
    forall j | 0 <= j < |after| && j != i
      ensures after[j].commentId != comments[i].commentId
    {
      assert after[j] == comments[j];
    }
    assert after[i].commentId == comments[i].commentId && !after[i].isDeleted;
    var k := FindLive(after, comments[i].commentId);
    assert k.Some?;
    assert k.value == i;
  }

  /** A deleted comment is gone for good: no live comment keeps its id, so updating or deleting
      it again answers 404, and it is no longer visible. */
  lemma DeleteIsFinal(comments: seq<Comment>, tasks: seq<TaskEntity>, i: int, uid: string)
    requires UniqueCommentIds(comments) && 0 <= i < |comments|
    ensures var after := comments[i := Deleted(comments[i], uid)];
            FindLive(after, comments[i].commentId).None?
            && !(exists c :: c in after && c.commentId == comments[i].commentId && Visible(tasks, c))
  {
    var after := comments[i := Deleted(comments[i], uid)];
    forall j | 0 <= j < |after|
      ensures after[j].commentId != comments[i].commentId || after[j].isDeleted
    {
      if j != i {
        assert comments[j].commentId != comments[i].commentId;
      }
    }
  }
}
