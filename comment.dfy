/**
 * models/Comment.php: the `comments` table with soft deletion, and the
 * `comments_count` column of `posts` that create and delete keep in step
 * inside one transaction. Row ids are handed out in increasing order
 * (`lastInsertId()`); whether the database rejects an INSERT (a foreign
 * key, a constraint) is the parameter `insertFails`.
 */
module Comments {
  import opened Optional

  datatype CommentRow = CommentRow(postId: int, userId: int, parentId: Option<int>, content: string, isDeleted: bool)

  /** findById: `WHERE c.id = ? AND c.is_deleted = 0`. */
  predicate Visible(comments: map<int, CommentRow>, id: int)
  {
    id in comments && !comments[id].isDeleted
  }

  /** getByPostId: top-level (`parent_id IS NULL`), not deleted, on that post. */
  function TopLevel(comments: map<int, CommentRow>, postId: int): (r: set<int>)
    ensures forall id :: id in r <==> Visible(comments, id) && comments[id].postId == postId && comments[id].parentId.None?
  {
    set id | id in comments && !comments[id].isDeleted && comments[id].postId == postId && comments[id].parentId.None?
  }

  /** getReplies: `WHERE c.parent_id = ? AND c.is_deleted = 0`. */
  function Replies(comments: map<int, CommentRow>, commentId: int): (r: set<int>)
    ensures forall id :: id in r <==> Visible(comments, id) && comments[id].parentId == Some(commentId)
  {
    set id | id in comments && !comments[id].isDeleted && comments[id].parentId == Some(commentId)
  }

  /** The page of getByPostId with each comment's `replies`, before ordering and paging. */
  function Thread(comments: map<int, CommentRow>, postId: int): (r: map<int, set<int>>)
    ensures r.Keys == TopLevel(comments, postId)
  {
    map id | id in TopLevel(comments, postId) :: Replies(comments, id)
  }

  /** Nothing deleted is listed, and a reply is never listed as top-level nor under another comment. */
  lemma ThreadShape(comments: map<int, CommentRow>, postId: int, top: int, reply: int)
    requires top in Thread(comments, postId) && reply in Thread(comments, postId)[top]
    ensures Visible(comments, top) && Visible(comments, reply)
    ensures comments[top].postId == postId && comments[top].parentId.None?
    ensures comments[reply].parentId == Some(top)
    ensures reply !in TopLevel(comments, postId)
    ensures forall other :: other in Thread(comments, postId) && other != top ==> reply !in Thread(comments, postId)[other]
  {
  }

  /** The comments that `comments_count` summarises: every live comment on the post, replies included. */
  function Live(comments: map<int, CommentRow>, postId: int): nat
  {
    |set id | id in comments && !comments[id].isDeleted && comments[id].postId == postId|
  }

  predicate Consistent(comments: map<int, CommentRow>, counts: map<int, int>)
  {
    forall p :: p in counts ==> counts[p] == Live(comments, p)
  }

  /** `comments_count = comments_count + 1` on the post. */
  function Bumped(counts: map<int, int>, postId: int): (r: map<int, int>)
    ensures r.Keys == counts.Keys
  {
    if postId in counts then counts[postId := counts[postId] + 1] else counts
  }

  /** `comments_count = GREATEST(comments_count - 1, 0)` on the post. */
  function Dropped(counts: map<int, int>, postId: int): (r: map<int, int>)
    ensures r.Keys == counts.Keys
  {
    if postId in counts then counts[postId := if counts[postId] - 1 > 0 then counts[postId] - 1 else 0] else counts
  }

  /** delete's UPDATE: the row is soft-deleted when an admin asks, or its own author. */
  predicate MayDelete(row: CommentRow, userId: Option<int>, isAdmin: bool)
  {
    isAdmin || userId == Some(row.userId)
  }

  lemma LiveAfterInsert(comments: map<int, CommentRow>, id: int, row: CommentRow, p: int)
    requires id !in comments && !row.isDeleted
    ensures Live(comments[id := row], p) == Live(comments, p) + (if row.postId == p then 1 else 0)
  {
    var c' := comments[id := row];
    var before := set i | i in comments && !comments[i].isDeleted && comments[i].postId == p;
    var after := set i | i in c' && !c'[i].isDeleted && c'[i].postId == p;
    if row.postId == p {
      assert after == before + {id};
    } else {
      assert after == before;
    }
  }

  lemma LiveAfterSoftDelete(comments: map<int, CommentRow>, id: int, p: int)
    requires Visible(comments, id)
    ensures Live(comments[id := comments[id].(isDeleted := true)], p) == Live(comments, p) - (if comments[id].postId == p then 1 else 0)
  {
    var c' := comments[id := comments[id].(isDeleted := true)];
    var before := set i | i in comments && !comments[i].isDeleted && comments[i].postId == p;
    var after := set i | i in c' && !c'[i].isDeleted && c'[i].postId == p;
    if comments[id].postId == p {
      assert before == after + {id};
    } else {
      assert after == before;
    }
  }

  /** A created comment with its increment keeps every counter exact. */
  lemma CreateKeepsConsistent(comments: map<int, CommentRow>, counts: map<int, int>, id: int, row: CommentRow)
    requires Consistent(comments, counts)
    requires id !in comments && !row.isDeleted
    ensures Consistent(comments[id := row], Bumped(counts, row.postId))
  {
    forall p | p in counts
      ensures Bumped(counts, row.postId)[p] == Live(comments[id := row], p)
    {
      LiveAfterInsert(comments, id, row, p);
    }
  }

  /** A soft deletion with its floored decrement keeps every counter exact: the floor is never reached. */
  lemma DeleteKeepsConsistent(comments: map<int, CommentRow>, counts: map<int, int>, id: int)
    requires Consistent(comments, counts)
    requires Visible(comments, id)
    ensures Consistent(comments[id := comments[id].(isDeleted := true)], Dropped(counts, comments[id].postId))
  {
    var p0 := comments[id].postId;
    forall p | p in counts
      ensures Dropped(counts, p0)[p] == Live(comments[id := comments[id].(isDeleted := true)], p)
    {
      LiveAfterSoftDelete(comments, id, p);
      if p == p0 {
        assert id in set i | i in comments && !comments[i].isDeleted && comments[i].postId == p;
      }
    }
  }

  /** getCount(): every comment that is not deleted, on any post. */
  function LiveTotal(comments: map<int, CommentRow>): nat
  {
    |set id | id in comments && !comments[id].isDeleted|
  }

  /** A created comment adds one to getCount(); a soft deletion takes one away. */
  lemma LiveTotalSteps(comments: map<int, CommentRow>, id: int, row: CommentRow, gone: int)
    requires id !in comments && !row.isDeleted
    requires Visible(comments, gone)
    ensures LiveTotal(comments[id := row]) == LiveTotal(comments) + 1
    ensures LiveTotal(comments[gone := comments[gone].(isDeleted := true)]) == LiveTotal(comments) - 1
  {
    var before := set i | i in comments && !comments[i].isDeleted;
    var c1 := comments[id := row];
    assert (set i | i in c1 && !c1[i].isDeleted) == before + {id};
    var c2 := comments[gone := comments[gone].(isDeleted := true)];
    assert before == (set i | i in c2 && !c2[i].isDeleted) + {gone};
  }

  datatype CreateResult = Created(row: CommentRow) | Rethrown

  class CommentStore {
    var comments: map<int, CommentRow>
    /** The `comments_count` column of each post. */
    var counts: map<int, int>
    /** The next AUTO_INCREMENT id. */
    var nextId: int

    predicate Valid()
      reads this
    {
      forall id :: id in comments ==> id < nextId
    }

    constructor (posts: set<int>)
      ensures Valid() && comments == map[] && counts.Keys == posts && Consistent(comments, counts)
    {
      comments := map[];
      counts := map p | p in posts :: 0;
      nextId := 1;
    }

    /** findById($id): the row when it exists and is not deleted. */
    method FindById(id: int) returns (r: Option<CommentRow>)
      ensures r.Some? <==> Visible(comments, id)
      ensures r.Some? ==> r.value == comments[id]
    {
      if id in comments && !comments[id].isDeleted {
        r := Some(comments[id]);
      } else {
        r := None;
      }
    }

    /**
     * create($data): the row and the post's increment commit together and
     * the new row is returned; a rejected INSERT rolls both back and the
     * exception goes on to the caller.
     */
    method Create(postId: int, userId: int, parentId: Option<int>, content: string, insertFails: bool)
      returns (r: CreateResult)
      requires Valid()
      modifies this
      ensures Valid()
      ensures insertFails ==> r == Rethrown && comments == old(comments) && counts == old(counts)
      ensures !insertFails ==>
        var row := CommentRow(postId, userId, parentId, content, false);
        && r == Created(row)
        && old(nextId) !in old(comments)
        && comments == old(comments)[old(nextId) := row]
        && counts == Bumped(old(counts), postId)
      ensures Consistent(old(comments), old(counts)) ==> Consistent(comments, counts)
    {
      if insertFails {
        return Rethrown;
      }
      var row := CommentRow(postId, userId, parentId, content, false);
      var id := nextId;
      if Consistent(comments, counts) {
        CreateKeepsConsistent(comments, counts, id, row);
      }
      comments := comments[id := row];
      nextId := nextId + 1;
      counts := Bumped(counts, postId);
      r := Created(row);
    }

    /**
     * delete($id, $userId, $isAdmin): false with nothing changed for a
     * missing or deleted comment, or when the UPDATE matches no row (not the
     * author); otherwise soft-deleted with the post's counter decremented.
     */
    method Delete(id: int, userId: Option<int>, isAdmin: bool) returns (ok: bool)
      requires Valid()
      modifies this
      ensures Valid()
      ensures ok <==> Visible(old(comments), id) && MayDelete(old(comments)[id], userId, isAdmin)
      ensures ok ==> (comments == old(comments)[id := old(comments)[id].(isDeleted := true)]
        && counts == Dropped(old(counts), old(comments)[id].postId))
      ensures !ok ==> comments == old(comments) && counts == old(counts)
      ensures Consistent(old(comments), old(counts)) ==> Consistent(comments, counts)
    {
      var comment := FindById(id);
      if comment.None? {
        return false;
      }
      var changed := isAdmin || userId == Some(comment.value.userId);
      if !changed {
        return false;
      }
      if Consistent(comments, counts) {
        DeleteKeepsConsistent(comments, counts, id);
      }
      comments := comments[id := comment.value.(isDeleted := true)];
      counts := Dropped(counts, comment.value.postId);
      ok := true;
    }

    /** getCount(). */
    method GetCount() returns (n: nat)
      ensures n == LiveTotal(comments)
    {
      n := |set id | id in comments && !comments[id].isDeleted|;
    }

    /** getByPostId($postId): the visible top-level comments with their replies, and their count as `total`. */
    method GetByPostId(postId: int) returns (thread: map<int, set<int>>, total: nat)
      ensures thread == Thread(comments, postId)
      ensures total == |TopLevel(comments, postId)|
    {
      thread := Thread(comments, postId);
      total := |thread.Keys|;
    }
  }
}
