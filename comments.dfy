/**
 * Comments on posts: writing one, the paged list of a post's comments
 * (newest first) and deleting one's own comment.
 */
module Comments {
  import opened Common
  import opened Tables
  import opened Community

  /** `createComment` on a snapshot: the post id and the content must be
      present, the post must exist; an author that is not a user makes the
      insert fail. */
  function CreateSpec(net: Net, postId: string, content: Option<string>, userId: string, now: Instant): Result<Net> {
    if postId == "" || !TruthyString(content) then Err(BadRequest)
    else if postId !in net.posts then Err(NotFound)
    else if userId !in net.users then Err(Internal)
    else Ok(net.(comments := net.comments[net.nextComment := Comment(postId, userId, content.value, now)],
                 nextComment := net.nextComment + 1))
  }

  /** The handler; the result is the new comment's id. */
  method CreateComment(h: Hub, postId: string, content: Option<string>, userId: string, now: Instant) returns (r: Result<int>)
    modifies h
    ensures r.Ok? ==> CreateSpec(old(h.Snapshot()), postId, content, userId, now) == Ok(h.Snapshot()) && r.value == old(h.nextComment)
    ensures r.Err? ==> CreateSpec(old(h.Snapshot()), postId, content, userId, now) == Err(r.error) && h.Snapshot() == old(h.Snapshot())
  {
    if postId == "" || !TruthyString(content) {
      return Err(BadRequest);
    }
    if postId !in h.posts {
      return Err(NotFound);
    }
    if userId !in h.users {
      return Err(Internal);
    }
    var id := h.nextComment;
    h.comments := h.comments[id := Comment(postId, userId, content.value, now)];
    h.nextComment := id + 1;
    return Ok(id);
  }

  /** `deleteComment` on a snapshot: only the author may delete. */
  function DeleteSpec(net: Net, commentId: int, userId: string): Result<Net> {
    if commentId !in net.comments then Err(NotFound)
    else if net.comments[commentId].userId != userId then Err(Unauthenticated)
    else Ok(net.(comments := net.comments - {commentId}))
  }

  method DeleteComment(h: Hub, commentId: int, userId: string) returns (r: Result<()>)
    modifies h
    ensures r.Ok? ==> DeleteSpec(old(h.Snapshot()), commentId, userId) == Ok(h.Snapshot())
    ensures r.Err? ==> DeleteSpec(old(h.Snapshot()), commentId, userId) == Err(r.error) && h.Snapshot() == old(h.Snapshot())
  {
    if commentId !in h.comments {
      return Err(NotFound);
    }
    if h.comments[commentId].userId != userId {
      return Err(Unauthenticated);
    }
    h.comments := h.comments - {commentId};
    return Ok(());
  }

  function OnPost(net: Net, postId: string): int -> bool {
    k => k in net.comments && net.comments[k].postId == postId
  }

  function WrittenAt(net: Net): int -> Instant {
    k => if k in net.comments then net.comments[k].createdAt else 0
  }

  /** The comments of a post, newest first. */
  function Ranked(net: Net, postId: string): seq<int> {
    NewestFirst(Filter(KeysBelow(net.comments, net.nextComment), OnPost(net, postId)), WrittenAt(net))
  }

  /** `getComments`: a page of an existing post's comments. */
  function GetComments(net: Net, postId: string, page: int, limit: int): Result<Listing>
    requires limit >= 1
  {
    if postId !in net.posts then Err(NotFound)
    else Paginate(Ranked(net, postId), page, limit)
  }

  // ---------------------------------------------------------------------

  /** Writing succeeds exactly for present fields on an existing post by an
      existing user, and adds that one comment under a fresh id. */
  lemma CreateOutcome(net: Net, postId: string, content: Option<string>, userId: string, now: Instant)
    requires IdsIssued(net)
    ensures CreateSpec(net, postId, content, userId, now).Ok? <==>
      postId != "" && TruthyString(content) && postId in net.posts && userId in net.users
    ensures postId == "" || !TruthyString(content) ==> CreateSpec(net, postId, content, userId, now) == Err(BadRequest)
    ensures postId != "" && TruthyString(content) && postId !in net.posts ==>
      CreateSpec(net, postId, content, userId, now) == Err(NotFound)
    ensures CreateSpec(net, postId, content, userId, now).Ok? ==>
      var n := CreateSpec(net, postId, content, userId, now).value;
      && net.nextComment !in net.comments
      && n.comments[net.nextComment] == Comment(postId, userId, content.value, now)
      && n.comments - {net.nextComment} == net.comments
      && IdsIssued(n)
      && n.(comments := net.comments, nextComment := net.nextComment) == net
  {
    if CreateSpec(net, postId, content, userId, now).Ok? {
      var n := CreateSpec(net, postId, content, userId, now).value;
      assert n.comments - {net.nextComment} == net.comments;
    }
  }

  /** Deleting succeeds exactly for the author of an existing comment and
      removes that comment only. */
  lemma DeleteOutcome(net: Net, commentId: int, userId: string)
    ensures DeleteSpec(net, commentId, userId).Ok? <==>
      commentId in net.comments && net.comments[commentId].userId == userId
    ensures commentId in net.comments && net.comments[commentId].userId != userId ==>
      DeleteSpec(net, commentId, userId) == Err(Unauthenticated)
    ensures DeleteSpec(net, commentId, userId).Ok? ==>
      var n := DeleteSpec(net, commentId, userId).value;
      && commentId !in n.comments
      && (forall k :: k in n.comments <==> k in net.comments && k != commentId)
      && (forall k :: k in n.comments ==> n.comments[k] == net.comments[k])
      && n.(comments := net.comments) == net
  {
  }

  /** A comment just written can be deleted by its author, which restores
      the comments table. */
  lemma CreateThenDelete(net: Net, postId: string, content: Option<string>, userId: string, now: Instant)
    requires IdsIssued(net) && CreateSpec(net, postId, content, userId, now).Ok?
    ensures var n := CreateSpec(net, postId, content, userId, now).value;
      DeleteSpec(n, net.nextComment, userId) == Ok(net.(nextComment := net.nextComment + 1))
  {
    CreateOutcome(net, postId, content, userId, now);
  }

  /** The ranked list holds exactly the comments of the post, newest first. */
  lemma RankedMembers(net: Net, postId: string)
    requires IdsIssued(net)
    ensures var r := Ranked(net, postId);
      && (forall k :: k in r <==> k in net.comments && net.comments[k].postId == postId)
      && (forall i, j :: 0 <= i < j < |r| ==> WrittenAt(net)(r[i]) >= WrittenAt(net)(r[j]))
  {
    var p := OnPost(net, postId);
    var f := Filter(KeysBelow(net.comments, net.nextComment), p);
    var r := Ranked(net, postId);
    assert multiset(r) == multiset(f);
    forall k ensures k in r <==> k in net.comments && net.comments[k].postId == postId {
      FilteredKeys(net.comments, net.nextComment, p, k);
      assert k in r <==> k in multiset(r);
      assert k in f <==> k in multiset(f);
    }
  }

  /** Ranking keeps the length of the filtered list. */
  lemma RankedLength(net: Net, postId: string)
    ensures |Ranked(net, postId)| == |Filter(KeysBelow(net.comments, net.nextComment), OnPost(net, postId))|
  {
    var f := Filter(KeysBelow(net.comments, net.nextComment), OnPost(net, postId));
    var r := Ranked(net, postId);
    assert multiset(r) == multiset(f);
    assert |r| == |multiset(r)|;
    assert |multiset(f)| == |f|;
  }

  /** The filtered ids count the comments of the post. */
  lemma OnPostCount(net: Net, postId: string)
    requires IdsIssued(net)
    ensures |Filter(KeysBelow(net.comments, net.nextComment), OnPost(net, postId))|
            == |set k | k in net.comments && net.comments[k].postId == postId|
  {
    FilterCount(net.comments, net.nextComment, OnPost(net, postId));
    OnPostSet(net, postId);
  }

  lemma OnPostSet(net: Net, postId: string)
    ensures (set k | k in net.comments && OnPost(net, postId)(k))
            == (set k | k in net.comments && net.comments[k].postId == postId)
  {
  }

  /** The ranked list holds each comment of the post once. */
  lemma RankedCount(net: Net, postId: string)
    requires IdsIssued(net)
    ensures |Ranked(net, postId)| == |set k | k in net.comments && net.comments[k].postId == postId|
  {
    RankedLength(net, postId);
    OnPostCount(net, postId);
  }

  /** An unknown post is not found and a page below 1 fails; otherwise the
      total counts all of the post's comments and the page holds at most
      `limit` of them. */
  lemma ListMeans(net: Net, postId: string, page: int, limit: int)
    requires IdsIssued(net) && limit >= 1
    ensures GetComments(net, postId, page, limit).Err? <==> postId !in net.posts || page < 1
    ensures postId !in net.posts ==> GetComments(net, postId, page, limit) == Err(NotFound)
    ensures GetComments(net, postId, page, limit).Ok? ==>
      var l := GetComments(net, postId, page, limit).value;
      && l.total == |set k | k in net.comments && net.comments[k].postId == postId|
      && |l.ids| <= limit
  {
    PaginateMeans(Ranked(net, postId), page, limit);
    if postId in net.posts && page >= 1 {
      RankedCount(net, postId);
    }
  }

  /** The facts a page of the ranked list inherits from it. */
  lemma PageFacts(net: Net, postId: string, page: int, limit: int)
    requires IdsIssued(net) && limit >= 1 && page >= 1
    ensures var l := Paginate(Ranked(net, postId), page, limit).value;
      && (forall i :: 0 <= i < |l.ids| ==> OnPost(net, postId)(l.ids[i]))
      && (forall i, j :: 0 <= i < j < |l.ids| ==> WrittenAt(net)(l.ids[i]) >= WrittenAt(net)(l.ids[j]))
      && (page == 1 && l.total <= limit ==> forall k :: k in l.ids <==> OnPost(net, postId)(k))
  {
    var r := Ranked(net, postId);
    assert (forall k :: k in r <==> OnPost(net, postId)(k))
        && (forall i, j :: 0 <= i < j < |r| ==> WrittenAt(net)(r[i]) >= WrittenAt(net)(r[j])) by {
      RankedMembers(net, postId);
    }
    ListingFacts(r, page, limit, WrittenAt(net), OnPost(net, postId), |r|);
  }

  /** A page lists only comments on the post. */
  lemma ListMembers(net: Net, postId: string, page: int, limit: int)
    requires IdsIssued(net) && limit >= 1
    ensures GetComments(net, postId, page, limit).Ok? ==>
      var l := GetComments(net, postId, page, limit).value;
      forall i :: 0 <= i < |l.ids| ==> l.ids[i] in net.comments && net.comments[l.ids[i]].postId == postId
  {
    if postId in net.posts && page >= 1 {
      var l := Paginate(Ranked(net, postId), page, limit).value;
      PageFacts(net, postId, page, limit);
      forall i | 0 <= i < |l.ids| ensures l.ids[i] in net.comments && net.comments[l.ids[i]].postId == postId {
        assert OnPost(net, postId)(l.ids[i]);
      }
    }
  }

  /** A page lists comments newest first (`WrittenAt` is the row's creation
      time; every listed id is a row, by ListMembers). */
  lemma ListNewestFirst(net: Net, postId: string, page: int, limit: int)
    requires IdsIssued(net) && limit >= 1
    ensures GetComments(net, postId, page, limit).Ok? ==>
      var l := GetComments(net, postId, page, limit).value;
      forall i, j :: 0 <= i < j < |l.ids| ==> WrittenAt(net)(l.ids[i]) >= WrittenAt(net)(l.ids[j])
  {
    if postId in net.posts && page >= 1 {
      PageFacts(net, postId, page, limit);
    }
  }

  /** The first page of a post whose comments fit on it holds them all. */
  lemma ListWhole(net: Net, postId: string, limit: int)
    requires IdsIssued(net) && limit >= 1 && postId in net.posts
    ensures var l := GetComments(net, postId, 1, limit).value;
      l.total <= limit ==> forall k :: k in l.ids <==> k in net.comments && net.comments[k].postId == postId
  {
    PageFacts(net, postId, 1, limit);
  }
}
