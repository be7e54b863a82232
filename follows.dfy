/**
 * Following users: the follow pair table, the validations that keep it free of
 * self-follows and duplicates, and the followers and following lists.
 */
module Follows {
  import opened Common
  import opened Tables
  import opened Community

  /** The ids of the rows holding the pair (follower, following), in id
      order; `findFirst` returns the first. */
  function PairIds(net: Net, follower: string, following: string): seq<int> {
    Filter(KeysBelow(net.follows, net.nextFollow), IsPair(net, follower, following))
  }

  function IsPair(net: Net, follower: string, following: string): int -> bool {
    k => k in net.follows && net.follows[k] == Follow(follower, following)
  }

  predicate HasPair(net: Net, follower: string, following: string) {
    exists k :: k in net.follows && net.follows[k] == Follow(follower, following)
  }

  /** `followUser` on a snapshot: not oneself, an existing user, not
      already followed; a current user that is not a user makes the insert
      fail. */
  function FollowSpec(net: Net, current: string, target: string): Result<Net> {
    if target == current then Err(BadRequest)
    else if target !in net.users then Err(NotFound)
    else if HasPair(net, current, target) then Err(BadRequest)
    else if current !in net.users then Err(Internal)
    else Ok(net.(follows := net.follows[net.nextFollow := Follow(current, target)], nextFollow := net.nextFollow + 1))
  }

  method FollowUser(h: Hub, current: string, target: string) returns (r: Result<()>)
    modifies h
    ensures r.Ok? ==> FollowSpec(old(h.Snapshot()), current, target) == Ok(h.Snapshot())
    ensures r.Err? ==> FollowSpec(old(h.Snapshot()), current, target) == Err(r.error) && h.Snapshot() == old(h.Snapshot())
  {
    if target == current {
      return Err(BadRequest);
    }
    if target !in h.users {
      return Err(NotFound);
    }
    if exists k :: k in h.follows && h.follows[k] == Follow(current, target) {
      return Err(BadRequest);
    }
    if current !in h.users {
      return Err(Internal);
    }
    h.follows := h.follows[h.nextFollow := Follow(current, target)];
    h.nextFollow := h.nextFollow + 1;
    return Ok(());
  }

  /** `unfollowUser` on a snapshot: the first row of the pair is deleted. */
  function UnfollowSpec(net: Net, current: string, target: string): Result<Net> {
    var ids := PairIds(net, current, target);
    if ids == [] then Err(BadRequest)
    else Ok(net.(follows := net.follows - {ids[0]}))
  }

  method UnfollowUser(h: Hub, current: string, target: string) returns (r: Result<()>)
    modifies h
    ensures r.Ok? ==> UnfollowSpec(old(h.Snapshot()), current, target) == Ok(h.Snapshot())
    ensures r.Err? ==> UnfollowSpec(old(h.Snapshot()), current, target) == Err(r.error) && h.Snapshot() == old(h.Snapshot())
  {
    var ids := PairIds(h.Snapshot(), current, target);
    if ids == [] {
      return Err(BadRequest);
    }
    h.follows := h.follows - {ids[0]};
    return Ok(());
  }

  /** A list of users and its length. */
  datatype UserList = UserList(users: seq<string>, count: nat)

  function FollowerRows(net: Net, user: string): int -> bool {
    k => k in net.follows && net.follows[k].followingId == user
  }

  function FollowingRows(net: Net, user: string): int -> bool {
    k => k in net.follows && net.follows[k].followerId == user
  }

  /** The follower of a row. */
  function FollowerOf(net: Net): int -> string {
    k => if k in net.follows then net.follows[k].followerId else ""
  }

  /** The followed user of a row. */
  function FollowedOf(net: Net): int -> string {
    k => if k in net.follows then net.follows[k].followingId else ""
  }

  /** `getFollowers`: the follower of every pair whose followed user is
      `user`. */
  function Followers(net: Net, user: string): UserList {
    var ids := FollowerIds(net, user);
    var us := Map(ids, FollowerOf(net));
    UserList(us, |us|)
  }

  /** `getFollowing`: the followed user of every pair whose follower is
      `user`. */
  function Following(net: Net, user: string): UserList {
    var ids := FollowingIds(net, user);
    var us := Map(ids, FollowedOf(net));
    UserList(us, |us|)
  }

  /** No one follows themselves. */
  predicate Irreflexive(net: Net) {
    forall k :: k in net.follows ==> net.follows[k].followerId != net.follows[k].followingId
  }

  /** Each pair is held by one row at most. */
  predicate PairsUnique(net: Net) {
    forall j, k :: j in net.follows && k in net.follows && net.follows[j] == net.follows[k] ==> j == k
  }

  // ---------------------------------------------------------------------

  /** Following succeeds exactly for another, existing, not yet followed
      user (when the current user exists), and adds exactly that pair. */
  lemma FollowOutcome(net: Net, current: string, target: string)
    ensures FollowSpec(net, current, target).Ok? <==>
      target != current && target in net.users && !HasPair(net, current, target) && current in net.users
    ensures target == current ==> FollowSpec(net, current, target) == Err(BadRequest)
    ensures target != current && target !in net.users ==> FollowSpec(net, current, target) == Err(NotFound)
    ensures target != current && target in net.users && HasPair(net, current, target) ==>
      FollowSpec(net, current, target) == Err(BadRequest)
    ensures FollowSpec(net, current, target).Ok? ==>
      var n := FollowSpec(net, current, target).value;
      && n.follows == net.follows[net.nextFollow := Follow(current, target)]
      && n.(follows := net.follows, nextFollow := net.nextFollow) == net
  {
  }

  /** Following and unfollowing keep the table free of self-follows and
      duplicate pairs. */
  lemma FollowKeepsInvariants(net: Net, current: string, target: string)
    requires IdsIssued(net) && Irreflexive(net) && PairsUnique(net)
    ensures FollowSpec(net, current, target).Ok? ==>
      var n := FollowSpec(net, current, target).value;
      IdsIssued(n) && Irreflexive(n) && PairsUnique(n)
    ensures UnfollowSpec(net, current, target).Ok? ==>
      var n := UnfollowSpec(net, current, target).value;
      IdsIssued(n) && Irreflexive(n) && PairsUnique(n)
  {
  }

  /** Unfollowing succeeds exactly when the pair is present, and removes one
      row of it; with unique pairs, the pair is then gone. */
  lemma UnfollowOutcome(net: Net, current: string, target: string)
    requires IdsIssued(net)
    ensures UnfollowSpec(net, current, target).Ok? <==> HasPair(net, current, target)
    ensures UnfollowSpec(net, current, target).Ok? ==>
      var n := UnfollowSpec(net, current, target).value;
      && (exists k :: k in net.follows && net.follows[k] == Follow(current, target) && n.follows == net.follows - {k})
      && n.(follows := net.follows) == net
      && (PairsUnique(net) ==> !HasPair(n, current, target))
  {
    var ids := PairIds(net, current, target);
    var p := IsPair(net, current, target);
    if HasPair(net, current, target) {
      var k :| k in net.follows && net.follows[k] == Follow(current, target);
      FilteredKeys(net.follows, net.nextFollow, p, k);
    }
    if ids != [] {
      FilteredKeys(net.follows, net.nextFollow, p, ids[0]);
    }
  }

  /** Right after a follow, the only row of the pair is the new one. */
  lemma NewPairFirst(net: Net, current: string, target: string)
    requires IdsIssued(net) && FollowSpec(net, current, target).Ok?
    ensures var n := FollowSpec(net, current, target).value;
      PairIds(n, current, target) != [] && PairIds(n, current, target)[0] == net.nextFollow
  {
    var n := FollowSpec(net, current, target).value;
    var ids := PairIds(n, current, target);
    var p := IsPair(n, current, target);
    FilteredKeys(n.follows, n.nextFollow, p, net.nextFollow);
    assert ids != [];
    assert p(ids[0]);
  }

  /** Follow then unfollow leaves the pairs as they were. */
  lemma FollowThenUnfollow(net: Net, current: string, target: string)
    requires IdsIssued(net) && FollowSpec(net, current, target).Ok?
    ensures UnfollowSpec(FollowSpec(net, current, target).value, current, target)
            == Ok(net.(nextFollow := net.nextFollow + 1))
  {
    var n := FollowSpec(net, current, target).value;
    NewPairFirst(net, current, target);
    assert UnfollowSpec(n, current, target) == Ok(n.(follows := n.follows - {net.nextFollow}));
    RemoveFresh(net.follows, net.nextFollow, Follow(current, target));
  }

  lemma RemoveFresh<V>(m: map<int, V>, k: int, v: V)
    requires k !in m
    ensures m[k := v] - {k} == m
  {
  }

  /** The rows of the followers list. */
  function FollowerIds(net: Net, user: string): seq<int> {
    Filter(KeysBelow(net.follows, net.nextFollow), FollowerRows(net, user))
  }

  /** The rows of the following list. */
  function FollowingIds(net: Net, user: string): seq<int> {
    Filter(KeysBelow(net.follows, net.nextFollow), FollowingRows(net, user))
  }

  /** Each entry of the followers list is the follower of its row. */
  lemma FollowerEntries(net: Net, user: string)
    ensures var ids := FollowerIds(net, user); var us := Followers(net, user).users;
      && |us| == |ids|
      && forall i :: 0 <= i < |ids| ==>
           ids[i] in net.follows && net.follows[ids[i]] == Follow(us[i], user)
  {
    var ids := FollowerIds(net, user);
    forall i | 0 <= i < |ids| ensures ids[i] in net.follows && net.follows[ids[i]].followingId == user {
      assert FollowerRows(net, user)(ids[i]);
    }
  }

  /** Every entry of the list comes from a pair. */
  lemma FollowersSound(net: Net, user: string, x: string)
    requires x in Followers(net, user).users
    ensures HasPair(net, x, user)
  {
    var ids := FollowerIds(net, user);
    var us := Followers(net, user).users;
    FollowerEntries(net, user);
    var i :| 0 <= i < |us| && us[i] == x;
    assert net.follows[ids[i]] == Follow(x, user);
  }

  /** Every pair gives an entry of the list. */
  lemma FollowersComplete(net: Net, user: string, x: string)
    requires IdsIssued(net) && HasPair(net, x, user)
    ensures x in Followers(net, user).users
  {
    var ids := FollowerIds(net, user);
    var us := Followers(net, user).users;
    var k :| k in net.follows && net.follows[k] == Follow(x, user);
    assert k in ids by {
      FilteredKeys(net.follows, net.nextFollow, FollowerRows(net, user), k);
    }
    var i :| 0 <= i < |ids| && ids[i] == k;
    assert us[i] == x by {
      assert us[i] == FollowerOf(net)(ids[i]);
    }
  }

  /** The list names the follower of each pair whose followed user is `user`. */
  lemma FollowersMember(net: Net, user: string, x: string)
    requires IdsIssued(net)
    ensures x in Followers(net, user).users <==> HasPair(net, x, user)
  {
    if x in Followers(net, user).users {
      FollowersSound(net, user, x);
    }
    if HasPair(net, x, user) {
      FollowersComplete(net, user, x);
    }
  }

  /** The followers count is the number of pairs whose followed user is
      `user`. */
  lemma FollowersCount(net: Net, user: string)
    requires IdsIssued(net)
    ensures Followers(net, user).count == |set k | k in net.follows && net.follows[k].followingId == user|
  {
    FilterCount(net.follows, net.nextFollow, FollowerRows(net, user));
    FollowerSet(net, user);
  }

  lemma FollowerSet(net: Net, user: string)
    ensures (set k | k in net.follows && FollowerRows(net, user)(k))
            == (set k | k in net.follows && net.follows[k].followingId == user)
  {
  }

  /** Each entry of the following list is the followed user of its row. */
  lemma FollowingEntries(net: Net, user: string)
    ensures var ids := FollowingIds(net, user); var us := Following(net, user).users;
      && |us| == |ids|
      && forall i :: 0 <= i < |ids| ==>
           ids[i] in net.follows && net.follows[ids[i]] == Follow(user, us[i])
  {
    var ids := FollowingIds(net, user);
    forall i | 0 <= i < |ids| ensures ids[i] in net.follows && net.follows[ids[i]].followerId == user {
      assert FollowingRows(net, user)(ids[i]);
    }
  }

  /** Every entry of the list comes from a pair. */
  lemma FollowingSound(net: Net, user: string, x: string)
    requires x in Following(net, user).users
    ensures HasPair(net, user, x)
  {
    var ids := FollowingIds(net, user);
    var us := Following(net, user).users;
    FollowingEntries(net, user);
    var i :| 0 <= i < |us| && us[i] == x;
    assert net.follows[ids[i]] == Follow(user, x);
  }

  /** Every pair gives an entry of the list. */
  lemma FollowingComplete(net: Net, user: string, x: string)
    requires IdsIssued(net) && HasPair(net, user, x)
    ensures x in Following(net, user).users
  {
    var ids := FollowingIds(net, user);
    var us := Following(net, user).users;
    var k :| k in net.follows && net.follows[k] == Follow(user, x);
    assert k in ids by {
      FilteredKeys(net.follows, net.nextFollow, FollowingRows(net, user), k);
    }
    var i :| 0 <= i < |ids| && ids[i] == k;
    assert us[i] == x by {
      assert us[i] == FollowedOf(net)(ids[i]);
    }
  }

  /** The list names the followed user of each pair whose follower is `user`. */
  lemma FollowingMember(net: Net, user: string, x: string)
    requires IdsIssued(net)
    ensures x in Following(net, user).users <==> HasPair(net, user, x)
  {
    if x in Following(net, user).users {
      FollowingSound(net, user, x);
    }
    if HasPair(net, user, x) {
      FollowingComplete(net, user, x);
    }
  }

  /** The following count is the number of pairs whose follower is `user`. */
  lemma FollowingCount(net: Net, user: string)
    requires IdsIssued(net)
    ensures Following(net, user).count == |set k | k in net.follows && net.follows[k].followerId == user|
  {
    FilterCount(net.follows, net.nextFollow, FollowingRows(net, user));
    FollowingSet(net, user);
  }

  lemma FollowingSet(net: Net, user: string)
    ensures (set k | k in net.follows && FollowingRows(net, user)(k))
            == (set k | k in net.follows && net.follows[k].followerId == user)
  {
  }
}
