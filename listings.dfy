/** The read-only views of the store: the post listing, a post's comment
    listing (both by non-increasing diversity score), the user listing and
    the aggregate statistics. */
module Listings {
  import opened Engagement
  import opened RealSeqs

  ghost predicate NonIncreasing<T>(s: seq<T>, key: T -> real)
  {
    forall i, j :: 0 <= i < j < |s| ==> key(s[i]) >= key(s[j])
  }

  /** Inserts `x` ahead of the first element whose key does not exceed its
      own, so that among equal keys the earlier element stays first. */
  function InsertByKey<T>(x: T, s: seq<T>, key: T -> real): (r: seq<T>)
    requires NonIncreasing(s, key)
    ensures NonIncreasing(r, key)
    ensures multiset(r) == multiset(s) + multiset{x}
    ensures |r| == |s| + 1
  {
    if s == [] then [x]
    else if key(s[0]) <= key(x) then [x] + s
    else
      var rest := InsertByKey(x, s[1..], key);
      KeysAtMost(rest, s[1..], x, key, key(s[0]));
      assert s == [s[0]] + s[1..];
      [s[0]] + rest
  }

  /** Rearranging elements whose keys are at most `hi`, plus one more such
      element, keeps every key at most `hi`. */
  lemma KeysAtMost<T>(r: seq<T>, s: seq<T>, x: T, key: T -> real, hi: real)
    requires multiset(r) == multiset(s) + multiset{x}
    requires key(x) <= hi
    requires forall i :: 0 <= i < |s| ==> key(s[i]) <= hi
    ensures forall i :: 0 <= i < |r| ==> key(r[i]) <= hi
  {
    forall i | 0 <= i < |r| ensures key(r[i]) <= hi {
      assert r[i] in multiset(r);
      if r[i] != x {
        assert r[i] in multiset(s);
        var k :| 0 <= k < |s| && s[k] == r[i];
      }
    }
  }

  /** A stable sort by non-increasing key, as Python's `sorted(..., reverse=True)`. */
  function SortByKeyDescending<T>(s: seq<T>, key: T -> real): (r: seq<T>)
    ensures NonIncreasing(r, key)
    ensures multiset(r) == multiset(s)
  {
    if s == [] then []
    else
      assert s == [s[0]] + s[1..];
      InsertByKey(s[0], SortByKeyDescending(s[1..], key), key)
  }

  /** The elements of `s` whose key is `k`, in their order in `s`. */
  function WithKey<T>(s: seq<T>, key: T -> real, k: real): (r: seq<T>)
    ensures |r| <= |s|
    ensures forall i :: 0 <= i < |r| ==> key(r[i]) == k
  {
    if s == [] then []
    else (if key(s[0]) == k then [s[0]] else []) + WithKey(s[1..], key, k)
  }

  lemma WithKeyCons<T>(x: T, s: seq<T>, key: T -> real, k: real)
    ensures WithKey([x] + s, key, k) == (if key(x) == k then [x] else []) + WithKey(s, key, k)
  {
    assert ([x] + s)[1..] == s;
  }

  /** The inserted element lands ahead of every element with its own key. */
  lemma {:induction false} InsertByKeyStable<T>(x: T, s: seq<T>, key: T -> real, k: real)
    requires NonIncreasing(s, key)
    ensures WithKey(InsertByKey(x, s, key), key, k) ==
            (if key(x) == k then [x] else []) + WithKey(s, key, k)
  {
    if s == [] {
      WithKeyCons(x, s, key, k);
    } else if key(s[0]) <= key(x) {
      WithKeyCons(x, s, key, k);
    } else {
      var rest := InsertByKey(x, s[1..], key);
      assert InsertByKey(x, s, key) == [s[0]] + rest;
      InsertByKeyStable(x, s[1..], key, k);
      WithKeyCons(s[0], rest, key, k);
      WithKeyCons(s[0], s[1..], key, k);
      assert s == [s[0]] + s[1..];
    }
  }

  /** Stability: for every key, the elements with that key keep their
      relative order, as Python's `sorted` guarantees. */
  lemma {:induction false} SortStable<T>(s: seq<T>, key: T -> real, k: real)
    ensures WithKey(SortByKeyDescending(s, key), key, k) == WithKey(s, key, k)
  {
    if s != [] {
      SortStable(s[1..], key, k);
      InsertByKeyStable(s[0], SortByKeyDescending(s[1..], key), key, k);
    }
  }

  function PostScore(p: Post): real
  {
    p.diversityScore
  }

  function CommentScore(c: Comment): real
  {
    c.diversityScore
  }

  /** All posts, highest diversity score first. */
  function PostListing(posts: seq<Post>): (r: seq<Post>)
    ensures multiset(r) == multiset(posts)
    ensures forall i, j :: 0 <= i < j < |r| ==> r[i].diversityScore >= r[j].diversityScore
  {
    var sorted := SortByKeyDescending(posts, PostScore);
    assert forall i, j :: 0 <= i < j < |sorted| ==> PostScore(sorted[i]) >= PostScore(sorted[j]);
    sorted
  }

  /** The comments under one post, in creation order. */
  function CommentsOf(comments: seq<Comment>, postId: int): (r: seq<Comment>)
    ensures forall i :: 0 <= i < |r| ==> r[i].postId == postId
    ensures forall c :: multiset(r)[c] == if c.postId == postId then multiset(comments)[c] else 0
  {
    if comments == [] then []
    else
      assert comments == [comments[0]] + comments[1..];
      (if comments[0].postId == postId then [comments[0]] else []) + CommentsOf(comments[1..], postId)
  }

  /** The comments under one post, highest diversity score first. */
  function CommentListing(comments: seq<Comment>, postId: int): (r: seq<Comment>)
    ensures forall c :: c in r <==> c in comments && c.postId == postId
    ensures forall c :: multiset(r)[c] == if c.postId == postId then multiset(comments)[c] else 0
    ensures forall i, j :: 0 <= i < j < |r| ==> r[i].diversityScore >= r[j].diversityScore
  {
    var own := CommentsOf(comments, postId);
    var sorted := SortByKeyDescending(own, CommentScore);
    assert forall i, j :: 0 <= i < j < |sorted| ==> CommentScore(sorted[i]) >= CommentScore(sorted[j]);
    assert forall c :: c in sorted <==> c in multiset(sorted);
    sorted
  }

  /** Posts with equal scores are listed in creation order. */
  lemma PostListingStable(posts: seq<Post>, score: real)
    ensures WithKey(PostListing(posts), PostScore, score) == WithKey(posts, PostScore, score)
  {
    SortStable(posts, PostScore, score);
  }

  /** A post's comments with equal scores are listed in creation order. */
  lemma CommentListingStable(comments: seq<Comment>, postId: int, score: real)
    ensures WithKey(CommentListing(comments, postId), CommentScore, score) ==
            WithKey(CommentsOf(comments, postId), CommentScore, score)
  {
    SortStable(CommentsOf(comments, postId), CommentScore, score);
  }

  /** All users, in id order (the order in which they were registered). */
  function UserListing(users: map<int, User>): (r: seq<User>)
    requires DenseUserIds(users)
    ensures |r| == |users|
    ensures forall k :: k in users ==> r[k - 1] == users[k]
    ensures forall i :: 0 <= i < |r| ==> r[i].id == i + 1
  {
    seq(|users|, i requires 0 <= i < |users| => users[i + 1])
  }

  datatype Stats = Stats(totalUsers: nat, totalPosts: nat, totalComments: nat,
                         totalReactions: nat, avgDiversityScore: real)

  /** The mean diversity score over all posts, 0 when there are none. */
  function AverageScore(posts: seq<Post>): (a: real)
    ensures posts == [] ==> a == 0.0
  {
    if posts == [] then 0.0 else Mean(MapSeq(posts, PostScore))
  }

  /** Scores that all lie in [lo, hi] average to a value in [lo, hi]; with
      no posts the average is 0, so then 0 must lie in [lo, hi]. */
  lemma AverageScoreBounds(posts: seq<Post>, lo: real, hi: real)
    requires posts == [] ==> lo <= 0.0 <= hi
    requires forall i :: 0 <= i < |posts| ==> lo <= posts[i].diversityScore <= hi
    ensures lo <= AverageScore(posts) <= hi
  {
    if posts != [] {
      MeanBounds(MapSeq(posts, PostScore), lo, hi);
    }
  }

  function GetStats(users: map<int, User>, posts: seq<Post>, comments: seq<Comment>,
                    reactions: seq<Reaction>): (s: Stats)
    ensures s.totalUsers == |users| && s.totalPosts == |posts|
    ensures s.totalComments == |comments| && s.totalReactions == |reactions|
    ensures posts == [] ==> s.avgDiversityScore == 0.0
    ensures (forall i :: 0 <= i < |posts| ==> 0.0 <= posts[i].diversityScore <= 25.0)
            ==> 0.0 <= s.avgDiversityScore <= 25.0
  {
    var s := Stats(|users|, |posts|, |comments|, |reactions|, AverageScore(posts));
    if forall i :: 0 <= i < |posts| ==> 0.0 <= posts[i].diversityScore <= 25.0 then
      AverageScoreBounds(posts, 0.0, 25.0);
      s
    else
      s
  }
}
