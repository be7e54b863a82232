/**
 * The tables of the social layer: users (by Google id), posts, challenges,
 * follow pairs, likes and comments, and the paging shared by its lists.
 */
module Community {
  import opened Common
  import opened Tables

  /** A challenge between two users; `kind` and `status` are the strings the
      client sent. */
  datatype Challenge = Challenge(
    senderId: string,
    receiverId: string,
    kind: string,
    description: string,
    count: Option<int>,
    duration: Option<int>,
    status: string,
    createdAt: Instant,
    updatedAt: Instant)

  /** `followerId` follows `followingId`. */
  datatype Follow = Follow(followerId: string, followingId: string)

  datatype Like = Like(postId: string, userId: string)

  datatype Comment = Comment(postId: string, userId: string, content: string, createdAt: Instant)

  /** The social tables as a value; ids are issued from the counters. */
  datatype Net = Net(
    users: set<string>,
    posts: set<string>,
    challenges: map<int, Challenge>,
    follows: map<int, Follow>,
    likes: map<int, Like>,
    comments: map<int, Comment>,
    nextChallenge: int,
    nextFollow: int,
    nextLike: int,
    nextComment: int)

  /** The persistence store of the social layer; the handlers write its
      tables in place. */
  class Hub {
    var users: set<string>
    var posts: set<string>
    var challenges: map<int, Challenge>
    var follows: map<int, Follow>
    var likes: map<int, Like>
    var comments: map<int, Comment>
    var nextChallenge: int
    var nextFollow: int
    var nextLike: int
    var nextComment: int

    /** The tables as a value. */
    function Snapshot(): Net
      reads this
    {
      Net(users, posts, challenges, follows, likes, comments,
          nextChallenge, nextFollow, nextLike, nextComment)
    }
  }

  /** Every id of a table is below the table's counter. */
  predicate IdsIssued(net: Net) {
    && 0 <= net.nextChallenge && 0 <= net.nextFollow && 0 <= net.nextLike && 0 <= net.nextComment
    && (forall k :: k in net.challenges ==> 0 <= k < net.nextChallenge)
    && (forall k :: k in net.follows ==> 0 <= k < net.nextFollow)
    && (forall k :: k in net.likes ==> 0 <= k < net.nextLike)
    && (forall k :: k in net.comments ==> 0 <= k < net.nextComment)
  }

  /** One page of a list and the figures the client pages with. */
  datatype Listing = Listing(ids: seq<int>, currentPage: int, totalPages: nat, total: nat)

  /** `skip = (page - 1) * limit`, `take = limit`,
      `totalPages = Math.ceil(total / limit)`; a page below 1 gives a
      negative skip, which the persistence layer rejects. */
  function Paginate(ids: seq<int>, page: int, limit: int): Result<Listing>
    requires limit >= 1
  {
    if page < 1 then Err(Internal)
    else Ok(Listing(Page(ids, (page - 1) * limit, limit), page, CeilDiv(|ids|, limit), |ids|))
  }

  /** `ORDER BY createdAt DESC` over ids, ties in id order. */
  function NewestFirst(ids: seq<int>, at: int -> Instant): (r: seq<int>)
    ensures multiset(r) == multiset(ids)
    ensures forall i, j :: 0 <= i < j < |r| ==> at(r[i]) >= at(r[j])
  {
    var r := Sort(ids, k => -at(k));
    assert SortedBy(r, k => -at(k));
    r
  }

  /** Paging: a page holds at most `limit` consecutive ids starting at the
      skip; the page count covers the total and no more; pages 1 to
      `totalPages` are the nonempty ones. */
  lemma PaginateMeans(ids: seq<int>, page: int, limit: int)
    requires limit >= 1
    ensures Paginate(ids, page, limit).Err? <==> page < 1
    ensures Paginate(ids, page, limit).Ok? ==>
      var l := Paginate(ids, page, limit).value;
      && l.total == |ids| && l.currentPage == page && |l.ids| <= limit
      && (forall i :: 0 <= i < |l.ids| ==> l.ids[i] == ids[(page - 1) * limit + i])
      && (l.totalPages - 1) * limit < |ids| + (if |ids| == 0 then 1 else 0) && |ids| <= l.totalPages * limit
      && (l.ids != [] <==> page <= l.totalPages)
  {
    if page >= 1 {
      PagesCover(|ids|, page, limit);
    }
  }

  /** Page `page` starts inside the list exactly when it is one of the
      first `Math.ceil(total / limit)` pages. */
  lemma PagesCover(total: nat, page: int, limit: int)
    requires page >= 1 && limit >= 1
    ensures (page - 1) * limit < total <==> page <= CeilDiv(total, limit)
  {
    var n := CeilDiv(total, limit);
    if page <= n {
      MulLe(page - 1, n - 1, limit);
    } else {
      MulLe(n, page - 1, limit);
    }
  }

  lemma MulLe(a: int, b: int, c: int)
    requires a <= b && c >= 0
    ensures a * c <= b * c
  {
    assert b * c - a * c == (b - a) * c;
  }

  /** A page of a list ordered by `at` is ordered by `at`, and the first
      page of a list that fits on it is the whole list. */
  lemma PaginateOrdered(ids: seq<int>, page: int, limit: int, at: int -> Instant)
    requires limit >= 1 && page >= 1
    requires forall i, j :: 0 <= i < j < |ids| ==> at(ids[i]) >= at(ids[j])
    ensures var l := Paginate(ids, page, limit).value;
      && (forall i :: 0 <= i < |l.ids| ==> l.ids[i] in ids)
      && (forall i, j :: 0 <= i < j < |l.ids| ==> at(l.ids[i]) >= at(l.ids[j]))
      && (page == 1 && |ids| <= limit ==> l.ids == ids)
  {
    var skip := (page - 1) * limit;
    assert skip >= 0 && (page == 1 ==> skip == 0);
    assert Paginate(ids, page, limit).value.ids == Page(ids, skip, limit);
    PageOrdered(ids, skip, limit, at);
  }

  /** A page of a ranked list whose members are exactly the rows with
      `belongs`: at most `limit` of those rows, in rank order, with the
      total counting them all; the first page of a list that fits on it
      holds them all. */
  lemma ListingFacts(r: seq<int>, page: int, limit: int, at: int -> Instant, belongs: int -> bool, n: nat)
    requires limit >= 1 && page >= 1 && |r| == n
    requires forall k :: k in r <==> belongs(k)
    requires forall i, j :: 0 <= i < j < |r| ==> at(r[i]) >= at(r[j])
    ensures var l := Paginate(r, page, limit).value;
      && l.total == n && |l.ids| <= limit
      && (forall i :: 0 <= i < |l.ids| ==> belongs(l.ids[i]))
      && (forall i, j :: 0 <= i < j < |l.ids| ==> at(l.ids[i]) >= at(l.ids[j]))
      && (page == 1 && l.total <= limit ==> forall k :: k in l.ids <==> belongs(k))
  {
    PaginateMeans(r, page, limit);
    PaginateOrdered(r, page, limit, at);
  }

  /** The rows of a page come from the list, in the list's order. */
  lemma PageOrdered(ids: seq<int>, skip: nat, take: nat, at: int -> Instant)
    requires forall i, j :: 0 <= i < j < |ids| ==> at(ids[i]) >= at(ids[j])
    ensures var p := Page(ids, skip, take);
      && (forall i :: 0 <= i < |p| ==> p[i] in ids)
      && (forall i, j :: 0 <= i < j < |p| ==> at(p[i]) >= at(p[j]))
      && (skip == 0 && |ids| <= take ==> p == ids)
  {
    var p := Page(ids, skip, take);
    forall i, j | 0 <= i < j < |p| ensures at(p[i]) >= at(p[j]) {
      assert p[i] == ids[skip + i] && p[j] == ids[skip + j];
    }
    forall i | 0 <= i < |p| ensures p[i] in ids {
      assert p[i] == ids[skip + i];
    }
  }

  /** Membership in a filtered table whose ids are below `n`. */
  lemma FilteredKeys<V>(m: map<int, V>, n: int, p: int -> bool, k: int)
    requires forall k :: k in m ==> 0 <= k < n
    ensures k in Filter(KeysBelow(m, n), p) <==> k in m && p(k)
  {
    FilterMember(KeysBelow(m, n), p, k);
  }

  /** Ids listed in id order and then filtered have as many entries as the
      table has matching rows. */
  lemma FilterCount<V>(m: map<int, V>, n: int, p: int -> bool)
    requires forall k :: k in m ==> 0 <= k < n
    ensures |Filter(KeysBelow(m, n), p)| == |set k | k in m && p(k)|
  {
    var ks := KeysBelow(m, n);
    var f := Filter(ks, p);
    FilterOrdered(ks, p);
    AscendingCard(f);
    var a := set x | x in f;
    var b := set k | k in m && p(k);
    forall k | k in a ensures k in b {
      FilterMember(ks, p, k);
    }
    forall k | k in b ensures k in a {
      FilterMember(ks, p, k);
    }
    assert a == b;
  }
}
