/** The in-memory store and the handlers that change it: registering users,
    posts and comments, and recording a reaction, which re-scores the
    reacted-to target and then runs the drift pass in place. */
module Store {
  import opened Profiles
  import opened Engagement
  import opened RealSeqs
  import opened Diversity
  import opened Drift

  /** `after` is `before` with the post at index `i` given one more reaction
      summary and a new score, and with every other post as it was. */
  ghost predicate PostUpdated(before: seq<Post>, after: seq<Post>, i: nat, s: Summary, score: real)
  {
    i < |before| &&
    after == before[i := before[i].(reactions := before[i].reactions + [s], diversityScore := score)]
  }

  /** The same for comments. */
  ghost predicate CommentUpdated(before: seq<Comment>, after: seq<Comment>, i: nat, s: Summary, score: real)
  {
    i < |before| &&
    after == before[i := before[i].(reactions := before[i].reactions + [s], diversityScore := score)]
  }

  /** One step of the drift pass on a single profile: each dimension in turn
      moves a tenth of the way toward the targets' mean on that dimension. */
  method DriftProfile(p0: Profile, targets: seq<Profile>) returns (p: Profile)
    requires |targets| > 0
    ensures p == Drifted(p0, targets)
  {
    DimensionsEnumerate();
    p := p0;
    for k := 0 to |Dimensions|
      invariant forall i :: 0 <= i < k ==>
                  p.Get(Dimensions[i]) == Blend(p0.Get(Dimensions[i]), Mean(Values(targets, Dimensions[i])))
      invariant forall i :: k <= i < |Dimensions| ==> p.Get(Dimensions[i]) == p0.Get(Dimensions[i])
    {
      var d := Dimensions[k];
      var avg := Mean(Values(targets, d));
      p := p.Set(d, Blend(p.Get(d), avg));
    }
    var q := Drifted(p0, targets);
    forall d ensures p.Get(d) == q.Get(d) {
      match d
      case LeftRight => assert Dimensions[0] == d;
      case LiberalConservative => assert Dimensions[1] == d;
      case ZionistAnti => assert Dimensions[2] == d;
    }
    ProfileExtensionality(p, q);
  }

  class EngagementStore {
    var users: map<int, User>
    var posts: seq<Post>
    var comments: seq<Comment>
    var reactions: seq<Reaction>

    /** What the handlers keep true: ids 1..n in each namespace, every
        profile in [-1, 1], and every stored score in [0, 25]. */
    ghost predicate Valid()
      reads this
    {
      DenseUserIds(users) && AllInBounds(users) &&
      SequentialPostIds(posts) && SequentialCommentIds(comments) &&
      (forall i :: 0 <= i < |posts| ==> 0.0 <= posts[i].diversityScore <= 25.0) &&
      (forall i :: 0 <= i < |comments| ==> 0.0 <= comments[i].diversityScore <= 25.0) &&
      (forall i :: 0 <= i < |reactions| ==> reactions[i].target.Canonical() && reactions[i].kind.Canonical())
    }

    constructor ()
      ensures Valid()
      ensures users == map[] && posts == [] && comments == [] && reactions == []
    {
      users, posts, comments, reactions := map[], [], [], [];
    }

    /** Registers a user under the next free id with the given profile. */
    method CreateUser(name: string, profile: Profile) returns (id: int)
      requires Valid() && profile.InBounds()
      modifies this
      ensures Valid()
      ensures id == |old(users)| + 1 && id !in old(users)
      ensures users == old(users)[id := User(id, name, profile)]
      ensures posts == old(posts) && comments == old(comments) && reactions == old(reactions)
    {
      id := |users| + 1;
      users := users[id := User(id, name, profile)];
      assert users.Keys == old(users).Keys + {id};
    }

    /** Appends a post with the next id, no reactions and score 0; the author
        is not looked up. */
    method CreatePost(authorId: int, content: string) returns (id: int)
      requires Valid()
      modifies this
      ensures Valid()
      ensures id == |old(posts)| + 1
      ensures posts == old(posts) + [Post(id, authorId, content, [], 0.0)]
      ensures users == old(users) && comments == old(comments) && reactions == old(reactions)
    {
      id := |posts| + 1;
      posts := posts + [Post(id, authorId, content, [], 0.0)];
    }

    /** Appends a comment with the next id, no reactions and score 0; neither
        the post nor the author is looked up. */
    method CreateComment(postId: int, authorId: int, content: string) returns (id: int)
      requires Valid()
      modifies this
      ensures Valid()
      ensures id == |old(comments)| + 1
      ensures comments == old(comments) + [Comment(id, postId, authorId, content, [], 0.0)]
      ensures users == old(users) && posts == old(posts) && reactions == old(reactions)
    {
      id := |comments| + 1;
      comments := comments + [Comment(id, postId, authorId, content, [], 0.0)];
    }

    /** The profiles of the authors user `uid` reacted to positively, read
        from the current profiles, in log order. */
    method TargetsOf(uid: int) returns (targets: seq<Profile>)
      requires uid in users && AuthorsPresent(users.Keys, posts, comments, reactions)
      ensures targets == TargetProfiles(uid, users, posts, comments, reactions)
    {
      targets := [];
      var j := 0;
      while j < |reactions|
        invariant 0 <= j <= |reactions|
        invariant AuthorsPresent(users.Keys, posts, comments, reactions[..j])
        invariant targets == TargetProfiles(uid, users, posts, comments, reactions[..j])
      {
        var r := reactions[j];
        assert reactions[..j + 1][..j] == reactions[..j];
        assert AuthorKnown(r, users.Keys, posts, comments);
        if r.userId == uid && r.kind.IsPositive() {
          match r.target
          case PostTarget =>
            var found := FindPost(posts, r.targetId);
            if found.Some? {
              targets := targets + [users[posts[found.value].authorId].profile];
            }
          case CommentTarget =>
            var found := FindComment(comments, r.targetId);
            if found.Some? {
              targets := targets + [users[comments[found.value].authorId].profile];
            }
          case OtherTarget(_) =>
        }
        j := j + 1;
      }
      assert reactions[..j] == reactions;
    }

    /** The drift pass: users in id order, each profile updated in place, so
        later users read the already updated profiles of earlier ones. */
    method DriftPass()
      requires DenseUserIds(users) && AuthorsPresent(users.Keys, posts, comments, reactions)
      modifies this
      ensures (posts, comments, reactions) == old((posts, comments, reactions))
      ensures users == DriftAll(old(users), posts, comments, reactions)
    {
      ghost var start, logs := users, (posts, comments, reactions);
      var n := |users|;
      for uid := 1 to n + 1
        invariant (posts, comments, reactions) == logs
        invariant users == DriftUpTo(start, uid - 1, logs.0, logs.1, logs.2)
      {
        DriftUser(uid);
      }
    }

    /** The step of the pass that visits user `uid`: the profile is updated
        only when the user has at least one target. */
    method DriftUser(uid: int)
      requires uid in users && AuthorsPresent(users.Keys, posts, comments, reactions)
      modifies this
      ensures (posts, comments, reactions) == old((posts, comments, reactions))
      ensures users == Drift.DriftUser(old(users), uid, posts, comments, reactions)
    {
      var targets := TargetsOf(uid);
      if targets != [] {
        var p := DriftProfile(users[uid].profile, targets);
        users := users[uid := users[uid].(profile := p)];
      }
    }

    /** Appends summary `s` to the post or comment that `target` and `id`
        resolve to, if any, and re-scores it over every logged reaction naming
        it, with the current profiles. */
    method UpdateTarget(target: TargetKind, id: int, s: Summary)
      requires Valid()
      modifies this
      ensures Valid()
      ensures (users, reactions) == old((users, reactions))
      ensures target == PostTarget && FindPost(old(posts), id).Some? ==>
                PostUpdated(old(posts), posts, FindPost(old(posts), id).value, s,
                            Score(ReactionsTo(reactions, PostTarget, id), users))
      ensures !(target == PostTarget && FindPost(old(posts), id).Some?) ==> posts == old(posts)
      ensures target == CommentTarget && FindComment(old(comments), id).Some? ==>
                CommentUpdated(old(comments), comments, FindComment(old(comments), id).value, s,
                               Score(ReactionsTo(reactions, CommentTarget, id), users))
      ensures !(target == CommentTarget && FindComment(old(comments), id).Some?) ==> comments == old(comments)
      ensures AuthorsPresent(users.Keys, old(posts), old(comments), reactions)
              ==> AuthorsPresent(users.Keys, posts, comments, reactions)
    {
      match target {
        case PostTarget => UpdatePost(id, s);
        case CommentTarget => UpdateComment(id, s);
        case OtherTarget(_) =>
      }
    }

    /** The post half of `UpdateTarget`. */
    method UpdatePost(id: int, s: Summary)
      requires Valid()
      modifies this
      ensures Valid()
      ensures (users, comments, reactions) == old((users, comments, reactions))
      ensures FindPost(old(posts), id).Some? ==>
                PostUpdated(old(posts), posts, FindPost(old(posts), id).value, s,
                            Score(ReactionsTo(reactions, PostTarget, id), users))
      ensures FindPost(old(posts), id).None? ==> posts == old(posts)
      ensures AuthorsPresent(users.Keys, old(posts), comments, reactions)
              ==> AuthorsPresent(users.Keys, posts, comments, reactions)
    {
      var found := FindPost(posts, id);
      if found.Some? {
        var i := found.value;
        var p := posts[i];
        var rs := ReactionsTo(reactions, PostTarget, id);
        ScoreBounds(rs, users);
        posts := posts[i := p.(reactions := p.reactions + [s], diversityScore := Score(rs, users))];
        if AuthorsPresent(users.Keys, old(posts), comments, reactions) {
          AuthorsPresentKeepsShape(users.Keys, old(posts), posts, comments, comments, reactions);
        }
      }
    }

    /** The comment half of `UpdateTarget`. */
    method UpdateComment(id: int, s: Summary)
      requires Valid()
      modifies this
      ensures Valid()
      ensures (users, posts, reactions) == old((users, posts, reactions))
      ensures FindComment(old(comments), id).Some? ==>
                CommentUpdated(old(comments), comments, FindComment(old(comments), id).value, s,
                               Score(ReactionsTo(reactions, CommentTarget, id), users))
      ensures FindComment(old(comments), id).None? ==> comments == old(comments)
      ensures AuthorsPresent(users.Keys, posts, old(comments), reactions)
              ==> AuthorsPresent(users.Keys, posts, comments, reactions)
    {
      var found := FindComment(comments, id);
      if found.Some? {
        var i := found.value;
        var c := comments[i];
        var rs := ReactionsTo(reactions, CommentTarget, id);
        ScoreBounds(rs, users);
        comments := comments[i := c.(reactions := c.reactions + [s], diversityScore := Score(rs, users))];
        if AuthorsPresent(users.Keys, posts, old(comments), reactions) {
          AuthorsPresentKeepsShape(users.Keys, posts, posts, old(comments), comments, reactions);
        }
      }
    }

    /** Logs a reaction; when it names an existing post or comment, appends
        a summary to that target and re-scores it over every logged reaction
        naming it, with the profiles as they stand before the drift; then
        runs the drift pass over the whole log. */
    method RecordReaction(userId: int, target: TargetKind, targetId: int, kind: ReactionKind)
      requires Valid() && target.Canonical() && kind.Canonical()
      requires AuthorsPresent(users.Keys, posts, comments, reactions + [Reaction(userId, target, targetId, kind)])
      modifies this
      ensures Valid()
      ensures reactions == old(reactions) + [Reaction(userId, target, targetId, kind)]
      ensures target == PostTarget && FindPost(old(posts), targetId).Some? ==>
                PostUpdated(old(posts), posts, FindPost(old(posts), targetId).value, Summary(userId, kind),
                            Score(ReactionsTo(reactions, PostTarget, targetId), old(users)))
      ensures !(target == PostTarget && FindPost(old(posts), targetId).Some?) ==> posts == old(posts)
      ensures target == CommentTarget && FindComment(old(comments), targetId).Some? ==>
                CommentUpdated(old(comments), comments, FindComment(old(comments), targetId).value,
                               Summary(userId, kind),
                               Score(ReactionsTo(reactions, CommentTarget, targetId), old(users)))
      ensures !(target == CommentTarget && FindComment(old(comments), targetId).Some?) ==> comments == old(comments)
      ensures AuthorsPresent(old(users).Keys, posts, comments, reactions)
      ensures users == DriftAll(old(users), posts, comments, reactions)
    {
      reactions := reactions + [Reaction(userId, target, targetId, kind)];
      UpdateTarget(target, targetId, Summary(userId, kind));
      DriftAllInBounds(users, posts, comments, reactions);
      DriftPass();
    }
  }
}
