/** The moderation dialog's post list (components/ModerationModal.tsx): approve, reject
    and delete, the realtime reducer, the initial load and the three status lists it
    shows. The database writes and broadcasts are left out; their results do not affect
    the list. */
module Moderation {
  import opened JsCore
  import Lists
  import Rows

  /** A `guest_posts` row. */
  datatype Post = Post(
    id: string,
    fanWallId: string,
    nickname: Option<string>,
    message: Option<string>,
    photoUrl: Option<string>,
    status: string,
    createdAt: Option<string>)

  function PostId(p: Post): string {
    p.id
  }

  /** The test `x => x.status === s`. */
  function Has(s: string): Post -> bool {
    (x: Post) => x.status == s
  }

  /** `p.map(x => x.id === id ? { ...x, status } : x)`. */
  function SetStatus(posts: seq<Post>, id: string, status: string): (r: seq<Post>)
    ensures |r| == |posts|
    ensures forall i :: 0 <= i < |posts| && posts[i].id == id ==> r[i] == posts[i].(status := status)
    ensures forall i :: 0 <= i < |posts| && posts[i].id != id ==> r[i] == posts[i]
  {
    if |posts| == 0 then []
    else [if posts[0].id == id then posts[0].(status := status) else posts[0]] + SetStatus(posts[1..], id, status)
  }

  /** `handleApprove`: the post leaves the pending and rejected columns, which keep their
      order, and shows as approved. */
  function Approve(posts: seq<Post>, id: string): (r: seq<Post>)
    ensures Lists.Filter(r, Has("pending")) == Rows.RemoveId(Lists.Filter(posts, Has("pending")), PostId, id)
    ensures Lists.Filter(r, Has("rejected")) == Rows.RemoveId(Lists.Filter(posts, Has("rejected")), PostId, id)
    ensures forall x :: x in posts && x.id == id ==> x.(status := "approved") in Lists.Filter(r, Has("approved"))
  {
    SetStatusLeavesOtherLists(posts, id, "approved", "pending");
    SetStatusLeavesOtherLists(posts, id, "approved", "rejected");
    SetStatusJoinsList(posts, id, "approved");
    SetStatus(posts, id, "approved")
  }

  /** `handleReject`: the post leaves the pending and approved columns and shows as
      rejected. */
  function Reject(posts: seq<Post>, id: string): (r: seq<Post>)
    ensures Lists.Filter(r, Has("pending")) == Rows.RemoveId(Lists.Filter(posts, Has("pending")), PostId, id)
    ensures Lists.Filter(r, Has("approved")) == Rows.RemoveId(Lists.Filter(posts, Has("approved")), PostId, id)
    ensures forall x :: x in posts && x.id == id ==> x.(status := "rejected") in Lists.Filter(r, Has("rejected"))
  {
    SetStatusLeavesOtherLists(posts, id, "rejected", "pending");
    SetStatusLeavesOtherLists(posts, id, "rejected", "approved");
    SetStatusJoinsList(posts, id, "rejected");
    SetStatus(posts, id, "rejected")
  }

  /** `handleDelete`: the posts without that id, in order. */
  function Delete(posts: seq<Post>, id: string): (r: seq<Post>)
    ensures forall x :: x in r ==> x in posts && x.id != id
    ensures forall x :: x in posts && x.id != id ==> x in r
  {
    Rows.RemoveId(posts, PostId, id)
  }

  /** The order of what stays: deleting from two lists joined is deleting from each, and
      a single post stays exactly when its id differs. */
  lemma DeleteKeepsOrder(a: seq<Post>, b: seq<Post>, x: Post, id: string)
    ensures Delete(a + b, id) == Delete(a, id) + Delete(b, id)
    ensures Delete([x], id) == if x.id == id then [] else [x]
  {
    Rows.RemoveConcat(a, b, PostId, id);
    Rows.RemoveOne(x, PostId, id);
  }

  /** Setting a post's status takes it out of every other status list, leaving those
      lists otherwise as they were, in order. */
  lemma {:induction false} SetStatusLeavesOtherLists(posts: seq<Post>, id: string, status: string, t: string)
    requires t != status
    ensures Lists.Filter(SetStatus(posts, id, status), Has(t)) == Rows.RemoveId(Lists.Filter(posts, Has(t)), PostId, id)
  {
    if |posts| > 0 {
      var x := posts[0];
      var y := if x.id == id then x.(status := status) else x;
      var rest := posts[1..];
      var hx: seq<Post> := if Has(t)(x) then [x] else [];
      calc {
        Lists.Filter(SetStatus(posts, id, status), Has(t));
        { assert SetStatus(posts, id, status) == [y] + SetStatus(rest, id, status); }
        Lists.Filter([y] + SetStatus(rest, id, status), Has(t));
        { Lists.FilterConcat([y], SetStatus(rest, id, status), Has(t)); Lists.FilterOne(y, Has(t)); }
        (if Has(t)(y) then [y] else []) + Lists.Filter(SetStatus(rest, id, status), Has(t));
        { SetStatusLeavesOtherLists(rest, id, status, t); HeadStep(x, id, status, t); }
        Rows.RemoveId(hx, PostId, id) + Rows.RemoveId(Lists.Filter(rest, Has(t)), PostId, id);
        { Rows.RemoveConcat(hx, Lists.Filter(rest, Has(t)), PostId, id); }
        Rows.RemoveId(hx + Lists.Filter(rest, Has(t)), PostId, id);
        { assert posts == [x] + rest; Lists.FilterConcat([x], rest, Has(t)); Lists.FilterOne(x, Has(t)); }
        Rows.RemoveId(Lists.Filter(posts, Has(t)), PostId, id);
      }
    }
  }

  /** The first post: after the status change it is in list `t` exactly when it was
      there before and does not have that id. */
  lemma HeadStep(x: Post, id: string, status: string, t: string)
    requires t != status
    ensures var y := if x.id == id then x.(status := status) else x;
      (if Has(t)(y) then [y] else []) == Rows.RemoveId(if Has(t)(x) then [x] else [], PostId, id)
  {
    Rows.RemoveOne(x, PostId, id);
  }

  /** Every post with that id shows in the list of its new status. */
  lemma SetStatusJoinsList(posts: seq<Post>, id: string, status: string)
    ensures forall x :: x in posts && x.id == id ==> x.(status := status) in Lists.Filter(SetStatus(posts, id, status), Has(status))
  {
    var r := SetStatus(posts, id, status);
    forall x | x in posts && x.id == id
      ensures x.(status := status) in Lists.Filter(r, Has(status))
    {
      var i :| 0 <= i < |posts| && posts[i] == x;
      assert r[i] == x.(status := status);
      assert r[i] in r;
    }
  }

  /** The three columns: pending, approved and rejected posts, each in list order. */
  datatype Columns = Columns(pending: seq<Post>, approved: seq<Post>, rejected: seq<Post>)

  function Sorted(posts: seq<Post>): (c: Columns)
    ensures forall x :: x in c.pending ==> x in posts && x.status == "pending"
    ensures forall x :: x in c.approved ==> x in posts && x.status == "approved"
    ensures forall x :: x in c.rejected ==> x in posts && x.status == "rejected"
    ensures forall x :: x in posts && x.status == "pending" ==> x in c.pending
    ensures forall x :: x in posts && x.status == "approved" ==> x in c.approved
    ensures forall x :: x in posts && x.status == "rejected" ==> x in c.rejected
  {
    var c := Columns(Lists.Filter(posts, Has("pending")), Lists.Filter(posts, Has("approved")),
                     Lists.Filter(posts, Has("rejected")));
    assert forall x :: x in c.pending ==> Has("pending")(x);
    assert forall x :: x in c.approved ==> Has("approved")(x);
    assert forall x :: x in c.rejected ==> Has("rejected")(x);
    c
  }

  predicate Listed(x: Post) {
    x.status == "pending" || x.status == "approved" || x.status == "rejected"
  }

  /** The columns share no post and together hold every post whose status is one of the
      three: their lengths add up to the number of such posts. */
  lemma {:induction false} ColumnsPartition(posts: seq<Post>)
    ensures var c := Sorted(posts);
      |c.pending| + |c.approved| + |c.rejected| == |Lists.Filter(posts, Listed)|
  {
    if |posts| > 0 {
      ColumnsPartition(posts[1..]);
    }
  }

  /** `loadAll`: the fetched posts replace the list unless the query failed (`None`). */
  function Load(posts: seq<Post>, fetched: Option<seq<Post>>): (r: seq<Post>)
    ensures fetched.None? ==> r == posts
    ensures fetched.Some? ==> r == fetched.value
  {
    fetched.GetOr(posts)
  }

  /** The realtime reducer as written: a delete removes the posts whose id equals the id
      of the change's new row. A delete notification carries an empty new row, so that
      id is `undefined` (`None`) and no post matches. */
  function ApplyAsWritten(posts: seq<Post>, c: Rows.Change<Post>): (r: seq<Post>)
    ensures !c.Deleted? ==> r == Rows.Apply(posts, PostId, c)
  {
    match c
    case Deleted(_) => Lists.Filter(posts, (x: Post) => Some(x.id) != None)
    case _ => Rows.Apply(posts, PostId, c)
  }

  /** As written, a realtime delete leaves the list as it was, even when the deleted
      post is on it. */
  lemma RealtimeDeleteIgnoredAsWritten(posts: seq<Post>, id: string)
    ensures ApplyAsWritten(posts, Rows.Deleted(id)) == posts
    ensures (exists i :: 0 <= i < |posts| && posts[i].id == id) ==>
      ApplyAsWritten(posts, Rows.Deleted(id)) != Rows.Apply(posts, PostId, Rows.Deleted(id))
  {
    Lists.FilterAll(posts, (x: Post) => Some(x.id) != None);
    if i :| 0 <= i < |posts| && posts[i].id == id {
      var r := Rows.Apply(posts, PostId, Rows.Deleted(id));
      assert posts[i] in posts;
      assert posts[i] !in r;
    }
  }

  /** The reducer removing by the deleted row's id, as the polls panel does. */
  function Apply(posts: seq<Post>, c: Rows.Change<Post>): (r: seq<Post>)
    ensures c.Deleted? ==> r == Rows.RemoveId(posts, PostId, c.oldId)
    ensures c.Deleted? ==> forall i :: 0 <= i < |r| ==> r[i].id != c.oldId
    ensures c.Inserted? ==> r == [c.row] + posts
    ensures c.Updated? ==> r == Rows.ReplaceId(posts, PostId, c.row)
    ensures c.Updated? ==> Lists.Map(r, PostId) == Lists.Map(posts, PostId)
  {
    Rows.ApplyEffect(posts, PostId, c);
    Rows.Apply(posts, PostId, c)
  }
}
