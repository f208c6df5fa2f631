/**
 * The read side of the discussion: `GET /api/comments/:postId`, which selects the
 * comments of one post, projects them to `username content date` and sorts them
 * by ascending date, and the default post `GET /api/posts/single` creates.
 */
module Discussion {
  import opened Records

  const DefaultTitle := "Welcome to miCommunity Discussion"
  const DefaultContent := "This is the main community discussion thread. Feel free to log in and post your comments below!"
  const DefaultAuthor := "Admin"

  /** The post created when the store holds none; `id` and `date` are assigned on creation. */
  function DefaultPost(id: nat, date: int): Post {
    Post(id, DefaultTitle, DefaultContent, DefaultAuthor, date)
  }

  /** The fields `.select('username content date')` keeps, leaving out the `_id`
      that the projection also returns. */
  datatype CommentView = CommentView(username: string, content: string, date: int)

  function View(c: Comment): CommentView {
    CommentView(c.username, c.content, c.date)
  }

  /** `Comment.find({ postId })`, in storage order. */
  function CommentsFor(comments: seq<Comment>, postId: nat): (r: seq<Comment>)
    ensures forall i | 0 <= i < |r| :: r[i].postId == postId
    ensures forall c | c in comments && c.postId == postId :: c in r
    ensures forall c: Comment :: multiset(r)[c] == if c.postId == postId then multiset(comments)[c] else 0
  {
    if comments == [] then []
    else
      var rest := CommentsFor(comments[1..], postId);
      assert comments == [comments[0]] + comments[1..];
      if comments[0].postId == postId then [comments[0]] + rest else rest
  }

  function Views(comments: seq<Comment>): (r: seq<CommentView>)
    ensures |r| == |comments|
    ensures forall i | 0 <= i < |r| :: r[i] == View(comments[i])
  {
    if comments == [] then [] else [View(comments[0])] + Views(comments[1..])
  }

  /** Projecting keeps every comment: a view occurs at least as often as any comment it shows. */
  lemma {:induction false} ViewsKeepCount(comments: seq<Comment>, c: Comment)
    ensures multiset(Views(comments))[View(c)] >= multiset(comments)[c]
  {
    if comments != [] {
      ViewsKeepCount(comments[1..], c);
      assert comments == [comments[0]] + comments[1..];
      assert Views(comments) == [View(comments[0])] + Views(comments[1..]);
    }
  }

  predicate SortedByDate(s: seq<CommentView>) {
    forall i, j | 0 <= i < j < |s| :: s[i].date <= s[j].date
  }

  /** An entry not later than any entry of a sorted list can go in front of it. */
  lemma SortedCons(head: CommentView, rest: seq<CommentView>)
    requires SortedByDate(rest)
    requires forall x | x in rest :: head.date <= x.date
    ensures SortedByDate([head] + rest)
  {
  }

  /** Puts `v` before the first entry that is not earlier than it. */
  function Insert(v: CommentView, s: seq<CommentView>): (r: seq<CommentView>)
    requires SortedByDate(s)
    ensures SortedByDate(r)
    ensures multiset(r) == multiset(s) + multiset{v}
  {
    if s == [] || v.date <= s[0].date then [v] + s
    else
      var rest := Insert(v, s[1..]);
      assert s == [s[0]] + s[1..];
      forall x | x in rest ensures s[0].date <= x.date {
        assert x in multiset(rest);
      }
      SortedCons(s[0], rest);
      [s[0]] + rest
  }

  /** `.sort({ date: 1 })`: ascending by date (entries with equal dates keep their order). */
  function SortByDate(s: seq<CommentView>): (r: seq<CommentView>)
    ensures SortedByDate(r)
    ensures multiset(r) == multiset(s)
  {
    if s == [] then []
    else
      assert s == [s[0]] + s[1..];
      Insert(s[0], SortByDate(s[1..]))
  }

  /** The handler's result for `postId`: in non-decreasing date order, and a
      rearrangement of the projected comments of that post. */
  function ListComments(comments: seq<Comment>, postId: nat): (r: seq<CommentView>)
    ensures SortedByDate(r)
    ensures multiset(r) == multiset(Views(CommentsFor(comments, postId)))
  {
    SortByDate(Views(CommentsFor(comments, postId)))
  }

  /** The listing has one entry per stored comment of the post, counted with
      repetitions, and every entry shows a stored comment of that post. */
  lemma ListCommentsSpec(comments: seq<Comment>, postId: nat)
    ensures |ListComments(comments, postId)| == |CommentsFor(comments, postId)|
    ensures forall v | v in ListComments(comments, postId) ::
              exists c | c in comments :: c.postId == postId && View(c) == v
  {
    var selected := CommentsFor(comments, postId);
    var listed := ListComments(comments, postId);
    assert |listed| == |multiset(listed)| == |multiset(Views(selected))| == |Views(selected)|;
    forall v | v in listed
      ensures exists c | c in comments :: c.postId == postId && View(c) == v
    {
      assert v in multiset(Views(selected));
      var i :| 0 <= i < |selected| && Views(selected)[i] == v;
      assert selected[i] in multiset(comments);
    }
  }

  /** Every stored comment of the post is shown at least as often as it is stored. */
  lemma ListedAsOftenAsStored(comments: seq<Comment>, c: Comment)
    ensures multiset(ListComments(comments, c.postId))[View(c)] >= multiset(comments)[c]
  {
    ViewsKeepCount(CommentsFor(comments, c.postId), c);
  }

  /** A stored comment shows up when its post's comments are listed. */
  lemma StoredCommentIsListed(comments: seq<Comment>, c: Comment)
    requires c in comments
    ensures View(c) in ListComments(comments, c.postId)
  {
    var selected := CommentsFor(comments, c.postId);
    var i :| 0 <= i < |selected| && selected[i] == c;
    assert View(c) == Views(selected)[i];
    assert View(c) in multiset(ListComments(comments, c.postId));
  }
}
