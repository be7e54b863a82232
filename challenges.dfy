/**
 * Challenges between users: sending one, reading one, changing its status,
 * withdrawing it, and the paged lists of received and sent challenges.
 */
module Challenges {
  import opened Common
  import opened Tables
  import opened Community

  const Pending: string := "PENDING"
  const Completed: string := "COMPLETED"
  const CountBased: string := "COUNT_BASED"
  const TimeBased: string := "TIME_BASED"

  /** The route parameter and the body of `sendChallenge`. */
  datatype ChallengeRequest = ChallengeRequest(
    receiverId: Option<string>,
    kind: Option<string>,
    description: Option<string>,
    count: Option<int>,
    duration: Option<int>)

  /** The new row: pending, with the count kept only for a count-based
      challenge and the duration only for a time-based one. */
  function NewChallenge(senderId: string, receiverId: string, kind: string, description: string,
                        count: Option<int>, duration: Option<int>, now: Instant): Challenge {
    Challenge(senderId, receiverId, kind, description,
              if kind == CountBased then count else None,
              if kind == TimeBased then duration else None,
              Pending, now, now)
  }

  /** The validations `sendChallenge` makes before it writes. */
  predicate WellFormed(req: ChallengeRequest) {
    && TruthyString(req.receiverId) && TruthyString(req.kind) && TruthyString(req.description)
    && (req.kind.value == CountBased ==> TruthyInt(req.count))
    && (req.kind.value == TimeBased ==> TruthyInt(req.duration))
  }

  /** `sendChallenge` on a snapshot: the field checks, an unknown receiver,
      then the insert; a sender that is not a user makes the insert fail. */
  function SendSpec(net: Net, senderId: string, req: ChallengeRequest, now: Instant): Result<Net> {
    if !TruthyString(req.receiverId) || !TruthyString(req.kind) || !TruthyString(req.description) then Err(BadRequest)
    else if req.kind.value == CountBased && !TruthyInt(req.count) then Err(BadRequest)
    else if req.kind.value == TimeBased && !TruthyInt(req.duration) then Err(BadRequest)
    else if req.receiverId.value !in net.users then Err(NotFound)
    else if senderId !in net.users then Err(Internal)
    else
      var c := NewChallenge(senderId, req.receiverId.value, req.kind.value, req.description.value,
                            req.count, req.duration, now);
      Ok(net.(challenges := net.challenges[net.nextChallenge := c], nextChallenge := net.nextChallenge + 1))
  }

  /** The handler; the result is the new challenge's id. */
  method SendChallenge(h: Hub, senderId: string, req: ChallengeRequest, now: Instant) returns (r: Result<int>)
    modifies h
    ensures r.Ok? ==> SendSpec(old(h.Snapshot()), senderId, req, now) == Ok(h.Snapshot()) && r.value == old(h.nextChallenge)
    ensures r.Err? ==> SendSpec(old(h.Snapshot()), senderId, req, now) == Err(r.error) && h.Snapshot() == old(h.Snapshot())
  {
    if !TruthyString(req.receiverId) || !TruthyString(req.kind) || !TruthyString(req.description) {
      return Err(BadRequest);
    }
    var receiverId, kind := req.receiverId.value, req.kind.value;
    if kind == CountBased && !TruthyInt(req.count) {
      return Err(BadRequest);
    }
    if kind == TimeBased && !TruthyInt(req.duration) {
      return Err(BadRequest);
    }
    if receiverId !in h.users {
      return Err(NotFound);
    }
    if senderId !in h.users {
      return Err(Internal);
    }
    var id := h.nextChallenge;
    h.challenges := h.challenges[id := NewChallenge(senderId, receiverId, kind, req.description.value, req.count, req.duration, now)];
    h.nextChallenge := id + 1;
    return Ok(id);
  }

  /** `getChallenge`: only the sender and the receiver may read it. */
  function GetChallenge(net: Net, id: int, userId: string): Result<Challenge> {
    if id !in net.challenges then Err(NotFound)
    else if net.challenges[id].senderId != userId && net.challenges[id].receiverId != userId then Err(Unauthenticated)
    else Ok(net.challenges[id])
  }

  /** `updateChallengeStatus` on a snapshot: the receiver may set any
      status, the sender only COMPLETED; nothing checks the transition. */
  function StatusSpec(net: Net, id: int, status: Option<string>, userId: string, now: Instant): Result<Net> {
    if !TruthyString(status) then Err(BadRequest)
    else if id !in net.challenges then Err(NotFound)
    else
      var c := net.challenges[id];
      if c.receiverId != userId && !(status.value == Completed && c.senderId == userId) then Err(Unauthenticated)
      else Ok(net.(challenges := net.challenges[id := c.(status := status.value, updatedAt := now)]))
  }

  method UpdateChallengeStatus(h: Hub, id: int, status: Option<string>, userId: string, now: Instant) returns (r: Result<Challenge>)
    modifies h
    ensures r.Ok? ==> StatusSpec(old(h.Snapshot()), id, status, userId, now) == Ok(h.Snapshot()) && r.value == h.challenges[id]
    ensures r.Err? ==> StatusSpec(old(h.Snapshot()), id, status, userId, now) == Err(r.error) && h.Snapshot() == old(h.Snapshot())
  {
    if !TruthyString(status) {
      return Err(BadRequest);
    }
    if id !in h.challenges {
      return Err(NotFound);
    }
    var c := h.challenges[id];
    if c.receiverId != userId && !(status.value == Completed && c.senderId == userId) {
      return Err(Unauthenticated);
    }
    var updated := c.(status := status.value, updatedAt := now);
    h.challenges := h.challenges[id := updated];
    return Ok(updated);
  }

  /** `deleteChallenge` on a snapshot: only its sender, only while pending. */
  function DeleteSpec(net: Net, id: int, userId: string): Result<Net> {
    if id !in net.challenges then Err(NotFound)
    else if net.challenges[id].senderId != userId then Err(Unauthenticated)
    else if net.challenges[id].status != Pending then Err(BadRequest)
    else Ok(net.(challenges := net.challenges - {id}))
  }

  method DeleteChallenge(h: Hub, id: int, userId: string) returns (r: Result<()>)
    modifies h
    ensures r.Ok? ==> DeleteSpec(old(h.Snapshot()), id, userId) == Ok(h.Snapshot())
    ensures r.Err? ==> DeleteSpec(old(h.Snapshot()), id, userId) == Err(r.error) && h.Snapshot() == old(h.Snapshot())
  {
    if id !in h.challenges {
      return Err(NotFound);
    }
    var c := h.challenges[id];
    if c.senderId != userId {
      return Err(Unauthenticated);
    }
    if c.status != Pending {
      return Err(BadRequest);
    }
    h.challenges := h.challenges - {id};
    return Ok(());
  }

  /** Which side of the challenge the list is for. */
  datatype Side = Received | Sent

  /** The WHERE clause of the two lists: the user on the given side, and the
      status asked for when one is given. */
  predicate Matches(net: Net, userId: string, side: Side, status: Option<string>, k: int) {
    && k in net.challenges
    && (if side == Received then net.challenges[k].receiverId else net.challenges[k].senderId) == userId
    && (TruthyString(status) ==> net.challenges[k].status == status.value)
  }

  function Matching(net: Net, userId: string, side: Side, status: Option<string>): int -> bool {
    k => Matches(net, userId, side, status, k)
  }

  function CreatedAt(net: Net): int -> Instant {
    k => if k in net.challenges then net.challenges[k].createdAt else 0
  }

  /** All matching challenges, newest first. */
  function Ranked(net: Net, userId: string, side: Side, status: Option<string>): seq<int> {
    NewestFirst(Filter(KeysBelow(net.challenges, net.nextChallenge), Matching(net, userId, side, status)), CreatedAt(net))
  }

  /** `getReceivedChallenges` and `getSentChallenges`. */
  function ChallengeList(net: Net, userId: string, side: Side, status: Option<string>, page: int, limit: int): Result<Listing>
    requires limit >= 1
  {
    Paginate(Ranked(net, userId, side, status), page, limit)
  }

  // ---------------------------------------------------------------------

  /** Sending succeeds exactly when the fields are present, the kind's own
      parameter is given, and both users exist; missing fields are a bad
      request and an unknown receiver is not found. */
  lemma SendOutcome(net: Net, senderId: string, req: ChallengeRequest, now: Instant)
    ensures SendSpec(net, senderId, req, now).Ok? <==>
      WellFormed(req) && req.receiverId.value in net.users && senderId in net.users
    ensures !WellFormed(req) ==> SendSpec(net, senderId, req, now) == Err(BadRequest)
    ensures WellFormed(req) && req.receiverId.value !in net.users ==> SendSpec(net, senderId, req, now) == Err(NotFound)
  {
  }

  /** A sent challenge is a new pending row from the sender to the receiver
      under a fresh id; it has a count only when count-based and a duration
      only when time-based; nothing else changes. */
  lemma SendResult(net: Net, senderId: string, req: ChallengeRequest, now: Instant)
    requires IdsIssued(net) && SendSpec(net, senderId, req, now).Ok?
    ensures var n := SendSpec(net, senderId, req, now).value;
      var id := net.nextChallenge;
      && IdsIssued(n) && id !in net.challenges && n.challenges.Keys == net.challenges.Keys + {id}
      && (forall k :: k in net.challenges ==> n.challenges[k] == net.challenges[k])
      && n.challenges[id].senderId == senderId && Some(n.challenges[id].receiverId) == req.receiverId
      && n.challenges[id].status == Pending && n.challenges[id].createdAt == now
      && (n.challenges[id].count.Some? <==> req.kind.value == CountBased)
      && (n.challenges[id].count.Some? ==> n.challenges[id].count == req.count && req.count.value != 0)
      && (n.challenges[id].duration.Some? <==> req.kind.value == TimeBased)
      && (n.challenges[id].duration.Some? ==> n.challenges[id].duration == req.duration && req.duration.value != 0)
      && n.users == net.users && n.follows == net.follows && n.likes == net.likes && n.comments == net.comments
  {
  }

  /** A challenge just sent can be withdrawn by its sender, which leaves the
      challenges as they were. */
  lemma SendThenDelete(net: Net, senderId: string, req: ChallengeRequest, now: Instant)
    requires IdsIssued(net) && SendSpec(net, senderId, req, now).Ok?
    ensures DeleteSpec(SendSpec(net, senderId, req, now).value, net.nextChallenge, senderId)
            == Ok(net.(nextChallenge := net.nextChallenge + 1))
  {
    var n := SendSpec(net, senderId, req, now).value;
    assert n.challenges - {net.nextChallenge} == net.challenges;
  }

  /** A challenge is shown exactly to its sender and its receiver. */
  lemma GetOutcome(net: Net, id: int, userId: string)
    ensures GetChallenge(net, id, userId).Ok? <==>
      id in net.challenges && (net.challenges[id].senderId == userId || net.challenges[id].receiverId == userId)
    ensures GetChallenge(net, id, userId).Ok? ==> GetChallenge(net, id, userId).value == net.challenges[id]
    ensures GetChallenge(net, id, userId) == Err(NotFound) <==> id !in net.challenges
  {
  }

  /** A status update succeeds exactly for a present status on an existing
      challenge by its receiver, or by its sender setting COMPLETED; it
      changes that row's status and update time only. */
  lemma StatusOutcome(net: Net, id: int, status: Option<string>, userId: string, now: Instant)
    ensures StatusSpec(net, id, status, userId, now).Ok? <==>
      && TruthyString(status) && id in net.challenges
      && (net.challenges[id].receiverId == userId || (status.value == Completed && net.challenges[id].senderId == userId))
    ensures !TruthyString(status) ==> StatusSpec(net, id, status, userId, now) == Err(BadRequest)
    ensures StatusSpec(net, id, status, userId, now).Ok? ==>
      var n := StatusSpec(net, id, status, userId, now).value;
      var c := net.challenges[id];
      && n.challenges.Keys == net.challenges.Keys
      && n.challenges[id] == Challenge(c.senderId, c.receiverId, c.kind, c.description, c.count, c.duration, status.value, c.createdAt, now)
      && (forall k :: k in net.challenges && k != id ==> n.challenges[k] == net.challenges[k])
      && n.(challenges := net.challenges) == net
  {
  }

  /** A sender who is not also the receiver can only complete. */
  lemma SenderOnlyCompletes(net: Net, id: int, status: Option<string>, userId: string, now: Instant)
    requires id in net.challenges && net.challenges[id].senderId == userId && net.challenges[id].receiverId != userId
    ensures StatusSpec(net, id, status, userId, now).Ok? <==> status == Some(Completed)
  {
  }

  /** Nothing checks the transition: the receiver can set any status, so a
      completed challenge can be set back to pending, after which its sender
      can withdraw it. */
  lemma ReopenThenDelete(net: Net, id: int, now: Instant)
    requires id in net.challenges && net.challenges[id].status == Completed
    requires net.challenges[id].senderId != net.challenges[id].receiverId
    ensures DeleteSpec(net, id, net.challenges[id].senderId) == Err(BadRequest)
    ensures StatusSpec(net, id, Some(Pending), net.challenges[id].receiverId, now).Ok?
    ensures DeleteSpec(StatusSpec(net, id, Some(Pending), net.challenges[id].receiverId, now).value, id,
                       net.challenges[id].senderId).Ok?
  {
  }

  /** A withdrawal succeeds exactly for the sender of a pending challenge and
      removes that challenge only. */
  lemma DeleteOutcome(net: Net, id: int, userId: string)
    ensures DeleteSpec(net, id, userId).Ok? <==>
      id in net.challenges && net.challenges[id].senderId == userId && net.challenges[id].status == Pending
    ensures id in net.challenges && net.challenges[id].senderId != userId ==> DeleteSpec(net, id, userId) == Err(Unauthenticated)
    ensures DeleteSpec(net, id, userId).Ok? ==>
      var n := DeleteSpec(net, id, userId).value;
      && n.challenges.Keys == net.challenges.Keys - {id}
      && (forall k :: k in n.challenges ==> n.challenges[k] == net.challenges[k])
      && n.(challenges := net.challenges) == net
  {
  }

  /** Once its receiver has accepted, rejected or completed it, the sender
      can no longer withdraw a challenge. */
  lemma AnsweredIsKept(net: Net, id: int, status: string, now: Instant)
    requires id in net.challenges && status != "" && status != Pending
    ensures StatusSpec(net, id, Some(status), net.challenges[id].receiverId, now).Ok?
    ensures DeleteSpec(StatusSpec(net, id, Some(status), net.challenges[id].receiverId, now).value, id,
                       net.challenges[id].senderId) == Err(BadRequest)
  {
  }

  /** The ranked list holds exactly the matching challenges, newest
      first. */
  lemma RankedMembers(net: Net, userId: string, side: Side, status: Option<string>)
    requires IdsIssued(net)
    ensures var r := Ranked(net, userId, side, status);
      && (forall k :: k in r <==> k in net.challenges && Matches(net, userId, side, status, k))
      && (forall i, j :: 0 <= i < j < |r| ==> CreatedAt(net)(r[i]) >= CreatedAt(net)(r[j]))
  {
    var p := Matching(net, userId, side, status);
    var f := Filter(KeysBelow(net.challenges, net.nextChallenge), p);
    var r := Ranked(net, userId, side, status);
    assert multiset(r) == multiset(f);
    forall k ensures k in r <==> k in net.challenges && Matches(net, userId, side, status, k) {
      FilteredKeys(net.challenges, net.nextChallenge, p, k);
      assert k in r <==> k in multiset(r);
      assert k in f <==> k in multiset(f);
    }
  }

  /** Ranking keeps the length of the filtered list. */
  lemma RankedLength(net: Net, userId: string, side: Side, status: Option<string>)
    ensures |Ranked(net, userId, side, status)|
            == |Filter(KeysBelow(net.challenges, net.nextChallenge), Matching(net, userId, side, status))|
  {
    var f := Filter(KeysBelow(net.challenges, net.nextChallenge), Matching(net, userId, side, status));
    var r := Ranked(net, userId, side, status);
    assert multiset(r) == multiset(f);
    assert |r| == |multiset(r)|;
    assert |multiset(f)| == |f|;
  }

  /** The filtered ids count the matching rows. */
  lemma MatchingCount(net: Net, userId: string, side: Side, status: Option<string>)
    requires IdsIssued(net)
    ensures |Filter(KeysBelow(net.challenges, net.nextChallenge), Matching(net, userId, side, status))|
            == |set k | k in net.challenges && Matching(net, userId, side, status)(k)|
  {
    FilterCount(net.challenges, net.nextChallenge, Matching(net, userId, side, status));
  }

  lemma MatchingSet(net: Net, userId: string, side: Side, status: Option<string>)
    ensures (set k | k in net.challenges && Matching(net, userId, side, status)(k))
            == (set k | k in net.challenges && Matches(net, userId, side, status, k))
  {
  }

  /** The ranked list holds each matching challenge once. */
  lemma RankedCount(net: Net, userId: string, side: Side, status: Option<string>)
    requires IdsIssued(net)
    ensures |Ranked(net, userId, side, status)| == |set k | k in net.challenges && Matches(net, userId, side, status, k)|
  {
    RankedLength(net, userId, side, status);
    MatchingCount(net, userId, side, status);
    MatchingSet(net, userId, side, status);
  }

  /** A page below 1 fails; otherwise the total counts all of the user's
      challenges on that side (with that status, if one is given) and the
      page holds at most `limit` of them. */
  lemma ListMeans(net: Net, userId: string, side: Side, status: Option<string>, page: int, limit: int)
    requires IdsIssued(net) && limit >= 1
    ensures ChallengeList(net, userId, side, status, page, limit).Err? <==> page < 1
    ensures ChallengeList(net, userId, side, status, page, limit).Ok? ==>
      var l := ChallengeList(net, userId, side, status, page, limit).value;
      && l.total == |set k | k in net.challenges && Matches(net, userId, side, status, k)|
      && |l.ids| <= limit
  {
    var r := Ranked(net, userId, side, status);
    PaginateMeans(r, page, limit);
    if page >= 1 {
      RankedCount(net, userId, side, status);
    }
  }

  /** The facts a page of the ranked list inherits from it. */
  lemma PageFacts(net: Net, userId: string, side: Side, status: Option<string>, page: int, limit: int)
    requires IdsIssued(net) && limit >= 1 && page >= 1
    ensures var l := Paginate(Ranked(net, userId, side, status), page, limit).value;
      var p := Matching(net, userId, side, status);
      && (forall i :: 0 <= i < |l.ids| ==> p(l.ids[i]))
      && (forall i, j :: 0 <= i < j < |l.ids| ==> CreatedAt(net)(l.ids[i]) >= CreatedAt(net)(l.ids[j]))
      && (page == 1 && l.total <= limit ==> forall k :: k in l.ids <==> p(k))
  {
    var r := Ranked(net, userId, side, status);
    assert (forall k :: k in r <==> Matching(net, userId, side, status)(k))
        && (forall i, j :: 0 <= i < j < |r| ==> CreatedAt(net)(r[i]) >= CreatedAt(net)(r[j])) by {
      RankedMembers(net, userId, side, status);
    }
    ListingFacts(r, page, limit, CreatedAt(net), Matching(net, userId, side, status), |r|);
  }

  /** A page lists only the user's challenges on that side, with that
      status if one is given. */
  lemma ListMembers(net: Net, userId: string, side: Side, status: Option<string>, page: int, limit: int)
    requires IdsIssued(net) && limit >= 1
    ensures ChallengeList(net, userId, side, status, page, limit).Ok? ==>
      var l := ChallengeList(net, userId, side, status, page, limit).value;
      forall i :: 0 <= i < |l.ids| ==> Matches(net, userId, side, status, l.ids[i])
  {
    if page >= 1 {
      var l := Paginate(Ranked(net, userId, side, status), page, limit).value;
      PageFacts(net, userId, side, status, page, limit);
      forall i | 0 <= i < |l.ids| ensures Matches(net, userId, side, status, l.ids[i]) {
        assert Matching(net, userId, side, status)(l.ids[i]);
      }
    }
  }

  /** A page lists challenges newest first (`CreatedAt` is the row's
      creation time; every listed id is a row, by ListMembers). */
  lemma ListNewestFirst(net: Net, userId: string, side: Side, status: Option<string>, page: int, limit: int)
    requires IdsIssued(net) && limit >= 1
    ensures ChallengeList(net, userId, side, status, page, limit).Ok? ==>
      var l := ChallengeList(net, userId, side, status, page, limit).value;
      forall i, j :: 0 <= i < j < |l.ids| ==> CreatedAt(net)(l.ids[i]) >= CreatedAt(net)(l.ids[j])
  {
    if page >= 1 {
      PageFacts(net, userId, side, status, page, limit);
    }
  }

  /** The first page of a list that fits on it holds every matching
      challenge. */
  lemma ListWhole(net: Net, userId: string, side: Side, status: Option<string>, limit: int)
    requires IdsIssued(net) && limit >= 1
    ensures var l := ChallengeList(net, userId, side, status, 1, limit).value;
      l.total <= limit ==> forall k :: k in l.ids <==> Matches(net, userId, side, status, k)
  {
    PageFacts(net, userId, side, status, 1, limit);
  }
}
