/**
 * Likes on posts: toggling a user's like, listing a post's likes and asking
 * whether a user has liked a post.
 */
module Likes {
  import opened Common
  import opened Tables
  import opened Community

  /** The body of `toggleLike`: any of four spellings of the user's id. */
  datatype ToggleBody = ToggleBody(
    userId: Option<string>,
    upperUserId: Option<string>,
    googleId: Option<string>,
    upperGoogleId: Option<string>)

  /** The body of `checkLikeStatus`. */
  datatype StatusBody = StatusBody(googleId: Option<string>, userId: Option<string>)

  /** `a || b` on optional strings, absent when both are falsy. */
  function Or(a: Option<string>, b: Option<string>): (r: Option<string>)
    ensures r.Some? <==> TruthyString(a) || TruthyString(b)
    ensures r.Some? ==> r.value != "" && (r == a || r == b)
    ensures TruthyString(a) ==> r == a
  {
    if TruthyString(a) then a else if TruthyString(b) then b else None
  }

  /** `userId || UserId || googleId || GoogleId`. */
  function ToggleUser(body: ToggleBody): Option<string> {
    Or(Or(Or(body.userId, body.upperUserId), body.googleId), body.upperGoogleId)
  }

  /** `userId || googleId`. */
  function StatusUser(body: StatusBody): Option<string> {
    Or(body.userId, body.googleId)
  }

  /** Some like of `user` on `postId` exists. */
  predicate Liked(net: Net, postId: string, user: string) {
    exists k :: k in net.likes && net.likes[k] == Like(postId, user)
  }

  /** The likes table without the likes of `user` on `postId`. */
  function Unliked(likes: map<int, Like>, postId: string, user: string): map<int, Like> {
    map k | k in likes && likes[k] != Like(postId, user) :: likes[k]
  }

  /** `toggleLike` on a snapshot: the user's likes on the post are deleted if
      there are any (answer `false`), otherwise one is created (answer
      `true`); a user that is not a user makes the create fail. */
  function ToggleSpec(net: Net, postId: string, body: ToggleBody): Result<(bool, Net)> {
    var u := ToggleUser(body);
    if u.None? then Err(BadRequest)
    else if postId !in net.posts then Err(NotFound)
    else if Liked(net, postId, u.value) then
      Ok((false, net.(likes := Unliked(net.likes, postId, u.value))))
    else if u.value !in net.users then Err(Internal)
    else Ok((true, net.(likes := net.likes[net.nextLike := Like(postId, u.value)], nextLike := net.nextLike + 1)))
  }

  /** The handler; the result is the `liked` flag of the answer. */
  method ToggleLike(h: Hub, postId: string, body: ToggleBody) returns (r: Result<bool>)
    modifies h
    ensures r.Ok? ==> ToggleSpec(old(h.Snapshot()), postId, body) == Ok((r.value, h.Snapshot()))
    ensures r.Err? ==> ToggleSpec(old(h.Snapshot()), postId, body) == Err(r.error) && h.Snapshot() == old(h.Snapshot())
  {
    var u := ToggleUser(body);
    if u.None? {
      return Err(BadRequest);
    }
    var user := u.value;
    if postId !in h.posts {
      return Err(NotFound);
    }
    if exists k :: k in h.likes && h.likes[k] == Like(postId, user) {
      h.likes := map k | k in h.likes && h.likes[k] != Like(postId, user) :: h.likes[k];
      return Ok(false);
    }
    if user !in h.users {
      return Err(Internal);
    }
    h.likes := h.likes[h.nextLike := Like(postId, user)];
    h.nextLike := h.nextLike + 1;
    return Ok(true);
  }

  /** The likes of a post and their number. */
  datatype LikeList = LikeList(ids: seq<int>, count: nat)

  function OnPost(net: Net, postId: string): int -> bool {
    k => k in net.likes && net.likes[k].postId == postId
  }

  /** `getLikes`: every like of an existing post. */
  function GetLikes(net: Net, postId: string): Result<LikeList> {
    if postId !in net.posts then Err(NotFound)
    else
      var ids := Filter(KeysBelow(net.likes, net.nextLike), OnPost(net, postId));
      Ok(LikeList(ids, |ids|))
  }

  /** `checkLikeStatus`: whether the user has liked an existing post. */
  function CheckLikeStatus(net: Net, postId: string, body: StatusBody): Result<bool> {
    var u := StatusUser(body);
    if u.None? then Err(BadRequest)
    else if postId !in net.posts then Err(NotFound)
    else Ok(Liked(net, postId, u.value))
  }

  /** No user likes a post twice. */
  predicate LikesUnique(net: Net) {
    forall j, k :: j in net.likes && k in net.likes && net.likes[j] == net.likes[k] ==> j == k
  }

  // ---------------------------------------------------------------------

  /** The user of `toggleLike` is the first truthy spelling, and the request
      is refused exactly when there is none. */
  lemma ToggleUserMeans(body: ToggleBody)
    ensures ToggleUser(body).None? <==>
      !TruthyString(body.userId) && !TruthyString(body.upperUserId) &&
      !TruthyString(body.googleId) && !TruthyString(body.upperGoogleId)
    ensures TruthyString(body.userId) ==> ToggleUser(body) == body.userId
    ensures !TruthyString(body.userId) && TruthyString(body.upperUserId) ==> ToggleUser(body) == body.upperUserId
    ensures !TruthyString(body.userId) && !TruthyString(body.upperUserId) && TruthyString(body.googleId) ==>
      ToggleUser(body) == body.googleId
    ensures ToggleUser(body).Some? ==> ToggleUser(body).value != ""
  {
  }

  /** Toggling flips the user's like on the post and leaves every other
      (post, user) pair and the other tables alone. */
  lemma ToggleFlips(net: Net, postId: string, body: ToggleBody)
    requires IdsIssued(net)
    ensures ToggleSpec(net, postId, body).Ok? ==>
      var u := ToggleUser(body).value;
      var (liked, n) := ToggleSpec(net, postId, body).value;
      && liked == !Liked(net, postId, u)
      && Liked(n, postId, u) == liked
      && (forall p, v :: (p, v) != (postId, u) ==> (Liked(n, p, v) <==> Liked(net, p, v)))
      && n.(likes := net.likes, nextLike := net.nextLike) == net
  {
    if ToggleSpec(net, postId, body).Ok? {
      var u := ToggleUser(body).value;
      var (liked, n) := ToggleSpec(net, postId, body).value;
      forall p, v | (p, v) != (postId, u)
        ensures Liked(n, p, v) <==> Liked(net, p, v)
      {
        if Liked(net, p, v) {
          var k :| k in net.likes && net.likes[k] == Like(p, v);
          assert k in n.likes && n.likes[k] == Like(p, v);
        }
        if Liked(n, p, v) {
          var k :| k in n.likes && n.likes[k] == Like(p, v);
          assert k in net.likes && net.likes[k] == Like(p, v);
        }
      }
      if liked {
        assert n.likes[net.nextLike] == Like(postId, u);
      }
    }
  }

  /** The errors of `toggleLike`, in the order the handler checks them. */
  lemma ToggleErrors(net: Net, postId: string, body: ToggleBody)
    ensures ToggleSpec(net, postId, body) == Err(BadRequest) <==> ToggleUser(body).None?
    ensures ToggleSpec(net, postId, body) == Err(NotFound) <==> ToggleUser(body).Some? && postId !in net.posts
    ensures ToggleSpec(net, postId, body) == Err(Internal) <==>
      && ToggleUser(body).Some? && postId in net.posts
      && !Liked(net, postId, ToggleUser(body).value) && ToggleUser(body).value !in net.users
  {
  }

  /** Toggling keeps the ids below the counter and at most one like per user
      and post. */
  lemma ToggleKeepsInvariants(net: Net, postId: string, body: ToggleBody)
    requires IdsIssued(net) && LikesUnique(net)
    ensures ToggleSpec(net, postId, body).Ok? ==>
      var n := ToggleSpec(net, postId, body).value.1;
      IdsIssued(n) && LikesUnique(n)
  {
  }

  /** Liking and then unliking restores the likes table. */
  lemma ToggleTwice(net: Net, postId: string, body: ToggleBody)
    requires IdsIssued(net)
    requires ToggleSpec(net, postId, body).Ok? && ToggleSpec(net, postId, body).value.0
    ensures var n := ToggleSpec(net, postId, body).value.1;
      ToggleSpec(n, postId, body) == Ok((false, net.(nextLike := net.nextLike + 1)))
  {
    var u := ToggleUser(body).value;
    var n := ToggleSpec(net, postId, body).value.1;
    assert n.likes[net.nextLike] == Like(postId, u);
    assert Liked(n, postId, u);
    var m := Unliked(n.likes, postId, u);
    forall k ensures k in m <==> k in net.likes {
      if k in net.likes {
        assert net.likes[k] != Like(postId, u);
      }
    }
    assert m == net.likes;
  }

  /** Asked with the same user, the status is the opposite of the flag the
      next toggle answers with. */
  lemma StatusBeforeToggle(net: Net, postId: string, userId: Option<string>, googleId: Option<string>)
    requires ToggleSpec(net, postId, ToggleBody(userId, None, googleId, None)).Ok?
    ensures CheckLikeStatus(net, postId, StatusBody(googleId, userId)) ==
      Ok(!ToggleSpec(net, postId, ToggleBody(userId, None, googleId, None)).value.0)
  {
  }

  /** The status answers true exactly when a like of the user on the post
      exists. */
  lemma StatusMeans(net: Net, postId: string, body: StatusBody)
    ensures CheckLikeStatus(net, postId, body).Err? <==> StatusUser(body).None? || postId !in net.posts
    ensures CheckLikeStatus(net, postId, body) == Ok(true) <==>
      && StatusUser(body).Some? && postId in net.posts
      && exists k :: k in net.likes && net.likes[k].postId == postId && net.likes[k].userId == StatusUser(body).value
  {
    if StatusUser(body).Some? && postId in net.posts {
      var u := StatusUser(body).value;
      if exists k :: k in net.likes && net.likes[k].postId == postId && net.likes[k].userId == u {
        var k :| k in net.likes && net.likes[k].postId == postId && net.likes[k].userId == u;
        assert net.likes[k] == Like(postId, u);
      }
    }
  }

  /** The list holds exactly the likes of the post. */
  lemma LikesListed(net: Net, postId: string)
    requires IdsIssued(net)
    ensures GetLikes(net, postId).Err? <==> postId !in net.posts
    ensures GetLikes(net, postId).Ok? ==>
      forall k :: k in GetLikes(net, postId).value.ids <==> k in net.likes && net.likes[k].postId == postId
  {
    if postId in net.posts {
      var p := OnPost(net, postId);
      forall k ensures k in GetLikes(net, postId).value.ids <==> k in net.likes && net.likes[k].postId == postId {
        FilteredKeys(net.likes, net.nextLike, p, k);
      }
    }
  }

  /** The count is the number of likes of the post. */
  lemma LikesCounted(net: Net, postId: string)
    requires IdsIssued(net) && postId in net.posts
    ensures GetLikes(net, postId).value.count == |set k | k in net.likes && net.likes[k].postId == postId|
  {
    FilterCount(net.likes, net.nextLike, OnPost(net, postId));
    OnPostSet(net, postId);
  }

  lemma OnPostSet(net: Net, postId: string)
    ensures (set k | k in net.likes && OnPost(net, postId)(k))
            == (set k | k in net.likes && net.likes[k].postId == postId)
  {
  }
}
