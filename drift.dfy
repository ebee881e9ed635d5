/** The opinion-drift pass as a reference definition: users are visited in
    id order, and each user's profile moves 10% of the way toward the mean
    profile of the authors of the posts and comments that user reacted to
    positively. Authors' profiles are read as they stand at that moment,
    so a user visited later sees the updates already made to earlier ones. */
module Drift {
  import opened Profiles
  import opened Engagement
  import opened RealSeqs
  import opened Diversity

  /** Resolving this reaction during a pass cannot fail: when it comes from
      a known user, is positive and names an existing target, that target's
      author is a known user (the pass looks the author up without a guard). */
  predicate AuthorKnown(r: Reaction, keys: set<int>, posts: seq<Post>, comments: seq<Comment>)
  {
    (r.userId in keys && r.kind.IsPositive() && TargetAuthor(r, posts, comments).Some?)
      ==> TargetAuthor(r, posts, comments).value in keys
  }

  predicate AuthorsPresent(keys: set<int>, posts: seq<Post>, comments: seq<Comment>, rs: seq<Reaction>)
  {
    forall i :: 0 <= i < |rs| ==> AuthorKnown(rs[i], keys, posts, comments)
  }

  /** Reaction `r` pulls user `uid`: it is `uid`'s, positive, and names an
      existing post or comment. */
  predicate Pulls(uid: int, r: Reaction, posts: seq<Post>, comments: seq<Comment>)
  {
    r.userId == uid && r.kind.IsPositive() && TargetAuthor(r, posts, comments).Some?
  }

  /** What reaction `r` adds to user `uid`'s target profiles: the author's
      profile when `r` pulls `uid`, else nothing. */
  function Contribution(uid: int, r: Reaction, users: map<int, User>,
                        posts: seq<Post>, comments: seq<Comment>): (c: seq<Profile>)
    requires uid in users && AuthorKnown(r, users.Keys, posts, comments)
    ensures |c| <= 1
  {
    if Pulls(uid, r, posts, comments)
    then [users[TargetAuthor(r, posts, comments).value].profile]
    else []
  }

  /** The profiles of the authors user `uid` reacted to positively, in log order. */
  function TargetProfiles(uid: int, users: map<int, User>, posts: seq<Post>,
                          comments: seq<Comment>, rs: seq<Reaction>): (t: seq<Profile>)
    requires uid in users && AuthorsPresent(users.Keys, posts, comments, rs)
    ensures |t| <= |rs|
  {
    if rs == [] then []
    else
      TargetProfiles(uid, users, posts, comments, rs[..|rs| - 1])
        + Contribution(uid, rs[|rs| - 1], users, posts, comments)
  }

  /** One coordinate of the drift rule: the result lies between the current
      value and the mean, strictly closer to the mean unless they are equal. */
  function Blend(current: real, avg: real): (r: real)
    ensures current <= avg ==> current <= r <= avg
    ensures avg <= current ==> avg <= r <= current
    ensures current != avg ==> r != current
  {
    current * 0.9 + avg * 0.1
  }

  /** The drift rule applied to a profile, one dimension at a time. */
  function Drifted(p: Profile, targets: seq<Profile>): (q: Profile)
    requires |targets| > 0
    ensures forall d :: q.Get(d) == Blend(p.Get(d), Mean(Values(targets, d)))
  {
    Profile(Blend(p.leftRight, Mean(Values(targets, LeftRight))),
            Blend(p.liberalConservative, Mean(Values(targets, LiberalConservative))),
            Blend(p.zionistAnti, Mean(Values(targets, ZionistAnti))))
  }

  /** The step of the pass that visits user `uid`. */
  function DriftUser(users: map<int, User>, uid: int, posts: seq<Post>,
                     comments: seq<Comment>, rs: seq<Reaction>): (r: map<int, User>)
    requires uid in users && AuthorsPresent(users.Keys, posts, comments, rs)
    ensures r.Keys == users.Keys
    ensures forall k :: k in users ==> r[k].id == users[k].id && r[k].name == users[k].name
    ensures forall k :: k in users && k != uid ==> r[k] == users[k]
  {
    var targets := TargetProfiles(uid, users, posts, comments, rs);
    if targets == [] then users
    else users[uid := users[uid].(profile := Drifted(users[uid].profile, targets))]
  }

  /** The pass after it has visited users 1..n in order. */
  function DriftUpTo(users: map<int, User>, n: nat, posts: seq<Post>,
                     comments: seq<Comment>, rs: seq<Reaction>): (r: map<int, User>)
    requires forall k :: 1 <= k <= n ==> k in users
    requires AuthorsPresent(users.Keys, posts, comments, rs)
    ensures r.Keys == users.Keys
    ensures forall k :: k in users ==> r[k].id == users[k].id && r[k].name == users[k].name
    ensures forall k :: k in users && !(1 <= k <= n) ==> r[k] == users[k]
  {
    if n == 0 then users
    else DriftUser(DriftUpTo(users, n - 1, posts, comments, rs), n, posts, comments, rs)
  }

  lemma DriftUpToStep(users: map<int, User>, n: nat, posts: seq<Post>,
                      comments: seq<Comment>, rs: seq<Reaction>)
    requires n > 0 && forall k :: 1 <= k <= n ==> k in users
    requires AuthorsPresent(users.Keys, posts, comments, rs)
    ensures DriftUpTo(users, n, posts, comments, rs)
         == DriftUser(DriftUpTo(users, n - 1, posts, comments, rs), n, posts, comments, rs)
  {
  }

  /** The whole pass: every user, in id order. */
  function DriftAll(users: map<int, User>, posts: seq<Post>,
                    comments: seq<Comment>, rs: seq<Reaction>): (r: map<int, User>)
    requires DenseUserIds(users) && AuthorsPresent(users.Keys, posts, comments, rs)
    ensures r.Keys == users.Keys && DenseUserIds(r)
    ensures forall k :: k in users ==> r[k].name == users[k].name
  {
    var r := DriftUpTo(users, |users|, posts, comments, rs);
    assert |r| == |r.Keys| == |users.Keys| == |users|;
    r
  }

  // ---------------------------------------------------------------------
  // Which users the pass leaves alone

  /** A user has target profiles exactly when one of that user's positive
      reactions names an existing post or comment. */
  lemma {:induction false} TargetProfilesEmpty(uid: int, users: map<int, User>, posts: seq<Post>,
                                               comments: seq<Comment>, rs: seq<Reaction>)
    requires uid in users && AuthorsPresent(users.Keys, posts, comments, rs)
    ensures TargetProfiles(uid, users, posts, comments, rs) == [] <==>
            forall i :: 0 <= i < |rs| && rs[i].userId == uid && rs[i].kind.IsPositive() ==>
                        TargetAuthor(rs[i], posts, comments).None?
  {
    if rs != [] {
      var init := rs[..|rs| - 1];
      TargetProfilesEmpty(uid, users, posts, comments, init);
      assert forall i :: 0 <= i < |init| ==> init[i] == rs[i];
    }
  }

  /** A user with no positive reaction, or whose positive reactions all name
      missing targets, keeps the same profile in that user's step. */
  lemma DriftUserUnchanged(users: map<int, User>, uid: int, posts: seq<Post>,
                           comments: seq<Comment>, rs: seq<Reaction>)
    requires uid in users && AuthorsPresent(users.Keys, posts, comments, rs)
    requires forall i :: 0 <= i < |rs| && rs[i].userId == uid && rs[i].kind.IsPositive() ==>
                         TargetAuthor(rs[i], posts, comments).None?
    ensures DriftUser(users, uid, posts, comments, rs) == users
  {
    TargetProfilesEmpty(uid, users, posts, comments, rs);
  }

  /** The same for the whole pass: such a user's profile comes out unchanged. */
  lemma {:induction false} DriftUpToKeepsInactive(users: map<int, User>, n: nat, uid: int, posts: seq<Post>,
                                                  comments: seq<Comment>, rs: seq<Reaction>)
    requires forall k :: 1 <= k <= n ==> k in users
    requires uid in users && AuthorsPresent(users.Keys, posts, comments, rs)
    requires forall i :: 0 <= i < |rs| && rs[i].userId == uid && rs[i].kind.IsPositive() ==>
                         TargetAuthor(rs[i], posts, comments).None?
    ensures DriftUpTo(users, n, posts, comments, rs)[uid] == users[uid]
  {
    if n > 0 {
      DriftUpToKeepsInactive(users, n - 1, uid, posts, comments, rs);
      var before := DriftUpTo(users, n - 1, posts, comments, rs);
      var after := DriftUser(before, n, posts, comments, rs);
      assert DriftUpTo(users, n, posts, comments, rs) == after;
      if n == uid {
        TargetProfilesEmpty(n, before, posts, comments, rs);
        assert after == before;
      } else {
        assert after[uid] == before[uid];
      }
    }
  }

  lemma DriftAllKeepsInactive(users: map<int, User>, uid: int, posts: seq<Post>,
                              comments: seq<Comment>, rs: seq<Reaction>)
    requires DenseUserIds(users) && uid in users && AuthorsPresent(users.Keys, posts, comments, rs)
    requires forall i :: 0 <= i < |rs| && rs[i].userId == uid && rs[i].kind.IsPositive() ==>
                         TargetAuthor(rs[i], posts, comments).None?
    ensures DriftAll(users, posts, comments, rs)[uid] == users[uid]
  {
    DriftUpToKeepsInactive(users, |users|, uid, posts, comments, rs);
  }

  // ---------------------------------------------------------------------
  // Reactions that cannot pull anyone

  /** A reaction that is not positive (angry, laugh or an unlisted kind),
      comes from an unknown user, or names a missing target. */
  predicate Inert(r: Reaction, keys: set<int>, posts: seq<Post>, comments: seq<Comment>)
  {
    !r.kind.IsPositive() || r.userId !in keys || TargetAuthor(r, posts, comments).None?
  }

  lemma AuthorsPresentPrefix(keys: set<int>, posts: seq<Post>, comments: seq<Comment>,
                             rs: seq<Reaction>, r: Reaction)
    requires AuthorsPresent(keys, posts, comments, rs + [r])
    ensures AuthorsPresent(keys, posts, comments, rs)
  {
    assert forall i :: 0 <= i < |rs| ==> (rs + [r])[i] == rs[i];
  }

  /** Appending a reaction keeps every author known exactly when the new
      reaction's author is known too. */
  lemma AuthorsPresentAppend(keys: set<int>, posts: seq<Post>, comments: seq<Comment>,
                             rs: seq<Reaction>, r: Reaction)
    ensures AuthorsPresent(keys, posts, comments, rs + [r]) <==>
              AuthorsPresent(keys, posts, comments, rs) && AuthorKnown(r, keys, posts, comments)
  {
    assert forall i :: 0 <= i < |rs| ==> (rs + [r])[i] == rs[i];
    assert (rs + [r])[|rs|] == r;
  }

  /** When every post and comment was written by a registered user, every
      reaction log resolves without an unknown author. */
  lemma AuthorsRegistered(keys: set<int>, posts: seq<Post>, comments: seq<Comment>, rs: seq<Reaction>)
    requires forall i :: 0 <= i < |posts| ==> posts[i].authorId in keys
    requires forall i :: 0 <= i < |comments| ==> comments[i].authorId in keys
    ensures AuthorsPresent(keys, posts, comments, rs)
  {
    forall i | 0 <= i < |rs| ensures AuthorKnown(rs[i], keys, posts, comments) {
      var a := TargetAuthor(rs[i], posts, comments);
      if a.Some? {
        if rs[i].target == PostTarget {
          assert posts[FindPost(posts, rs[i].targetId).value].authorId in keys;
        } else {
          assert comments[FindComment(comments, rs[i].targetId).value].authorId in keys;
        }
      }
    }
  }

  /** Every target profile of `uid` comes from one of `uid`'s own positive
      reactions in the log: it is the current profile of the author of the
      post or comment that reaction names. */
  lemma {:induction false} TargetProfilesSource(uid: int, users: map<int, User>, posts: seq<Post>,
                                                comments: seq<Comment>, rs: seq<Reaction>, i: int)
    requires uid in users && AuthorsPresent(users.Keys, posts, comments, rs)
    requires 0 <= i < |TargetProfiles(uid, users, posts, comments, rs)|
    ensures exists j :: 0 <= j < |rs| && rs[j].userId == uid && rs[j].kind.IsPositive() &&
              TargetAuthor(rs[j], posts, comments).Some? &&
              TargetAuthor(rs[j], posts, comments).value in users &&
              TargetProfiles(uid, users, posts, comments, rs)[i] ==
                users[TargetAuthor(rs[j], posts, comments).value].profile
  {
    var rs' := rs[..|rs| - 1];
    AuthorsPresentPrefix(users.Keys, posts, comments, rs', rs[|rs| - 1]);
    assert rs == rs' + [rs[|rs| - 1]];
    var t' := TargetProfiles(uid, users, posts, comments, rs');
    if i < |t'| {
      TargetProfilesSource(uid, users, posts, comments, rs', i);
      var j :| 0 <= j < |rs'| && rs'[j].userId == uid && rs'[j].kind.IsPositive() &&
               TargetAuthor(rs'[j], posts, comments).Some? &&
               TargetAuthor(rs'[j], posts, comments).value in users &&
               t'[i] == users[TargetAuthor(rs'[j], posts, comments).value].profile;
      assert rs[j] == rs'[j];
    } else {
      assert AuthorKnown(rs[|rs| - 1], users.Keys, posts, comments);
      assert rs[|rs| - 1].userId == uid;
    }
  }

  /** The reactions that pull user `uid`, in log order. */
  function Active(uid: int, posts: seq<Post>, comments: seq<Comment>, rs: seq<Reaction>): (a: seq<Reaction>)
    ensures |a| <= |rs|
    ensures forall i :: 0 <= i < |a| ==> Pulls(uid, a[i], posts, comments)
  {
    if rs == [] then []
    else
      Active(uid, posts, comments, rs[..|rs| - 1])
        + (if Pulls(uid, rs[|rs| - 1], posts, comments) then [rs[|rs| - 1]] else [])
  }

  /** Exactly the reactions that pull `uid`, each as often as in the log. */
  lemma {:induction false} ActiveContents(uid: int, posts: seq<Post>, comments: seq<Comment>, rs: seq<Reaction>)
    ensures forall x :: multiset(Active(uid, posts, comments, rs))[x] ==
                        if Pulls(uid, x, posts, comments) then multiset(rs)[x] else 0
  {
    if rs != [] {
      ActiveContents(uid, posts, comments, rs[..|rs| - 1]);
      assert rs == rs[..|rs| - 1] + [rs[|rs| - 1]];
    }
  }

  /** One target profile per reaction that pulls `uid`, in order: the `i`-th
      is the profile of the author that the `i`-th such reaction names, so
      reacting twice to one author weights that author twice in the mean. */
  lemma {:induction false} TargetProfilesOfActive(uid: int, users: map<int, User>, posts: seq<Post>,
                                                  comments: seq<Comment>, rs: seq<Reaction>)
    requires uid in users && AuthorsPresent(users.Keys, posts, comments, rs)
    ensures |TargetProfiles(uid, users, posts, comments, rs)| == |Active(uid, posts, comments, rs)|
    ensures forall i :: 0 <= i < |Active(uid, posts, comments, rs)| ==>
              TargetAuthor(Active(uid, posts, comments, rs)[i], posts, comments).value in users &&
              TargetProfiles(uid, users, posts, comments, rs)[i] ==
                users[TargetAuthor(Active(uid, posts, comments, rs)[i], posts, comments).value].profile
  {
    if rs != [] {
      var init, r := rs[..|rs| - 1], rs[|rs| - 1];
      AuthorsPresentPrefix(users.Keys, posts, comments, init, r);
      assert rs == init + [r];
      TargetProfilesOfActive(uid, users, posts, comments, init);
      var t, a := TargetProfiles(uid, users, posts, comments, rs), Active(uid, posts, comments, rs);
      var t', a' := TargetProfiles(uid, users, posts, comments, init), Active(uid, posts, comments, init);
      if Pulls(uid, r, posts, comments) {
        assert AuthorKnown(r, users.Keys, posts, comments);
        assert t == t' + [users[TargetAuthor(r, posts, comments).value].profile];
        assert a == a' + [r];
        assert forall i :: 0 <= i < |a'| ==> t[i] == t'[i] && a[i] == a'[i];
      } else {
        assert t == t' && a == a';
      }
    }
  }

  /** An inert reaction adds nothing to any user's target profiles. */
  lemma TargetProfilesIgnoresInert(uid: int, users: map<int, User>, posts: seq<Post>,
                                   comments: seq<Comment>, rs: seq<Reaction>, r: Reaction)
    requires uid in users && AuthorsPresent(users.Keys, posts, comments, rs + [r])
    requires Inert(r, users.Keys, posts, comments)
    ensures AuthorsPresent(users.Keys, posts, comments, rs)
    ensures TargetProfiles(uid, users, posts, comments, rs + [r]) == TargetProfiles(uid, users, posts, comments, rs)
  {
    AuthorsPresentPrefix(users.Keys, posts, comments, rs, r);
    assert (rs + [r])[..|rs + [r]| - 1] == rs;
    assert Contribution(uid, r, users, posts, comments) == [];
  }

  lemma {:induction false} DriftUpToIgnoresInert(users: map<int, User>, n: nat, posts: seq<Post>,
                                                 comments: seq<Comment>, rs: seq<Reaction>, r: Reaction)
    requires forall k :: 1 <= k <= n ==> k in users
    requires AuthorsPresent(users.Keys, posts, comments, rs + [r])
    requires Inert(r, users.Keys, posts, comments)
    ensures AuthorsPresent(users.Keys, posts, comments, rs)
    ensures DriftUpTo(users, n, posts, comments, rs + [r]) == DriftUpTo(users, n, posts, comments, rs)
  {
    AuthorsPresentPrefix(users.Keys, posts, comments, rs, r);
    if n > 0 {
      DriftUpToIgnoresInert(users, n - 1, posts, comments, rs, r);
      var before := DriftUpTo(users, n - 1, posts, comments, rs);
      assert before.Keys == users.Keys;
      TargetProfilesIgnoresInert(n, before, posts, comments, rs, r);
      DriftUpToStep(users, n, posts, comments, rs + [r]);
      DriftUpToStep(users, n, posts, comments, rs);
    }
  }

  /** Re-scoring posts and comments while keeping their ids and authors
      keeps every logged reaction's author known. */
  lemma AuthorsPresentKeepsShape(keys: set<int>, posts: seq<Post>, posts': seq<Post>,
                                 comments: seq<Comment>, comments': seq<Comment>, rs: seq<Reaction>)
    requires |posts'| == |posts| && |comments'| == |comments|
    requires forall i :: 0 <= i < |posts| ==> posts'[i].id == posts[i].id && posts'[i].authorId == posts[i].authorId
    requires forall i :: 0 <= i < |comments| ==>
               comments'[i].id == comments[i].id && comments'[i].authorId == comments[i].authorId
    requires AuthorsPresent(keys, posts, comments, rs)
    ensures AuthorsPresent(keys, posts', comments', rs)
  {
    forall i | 0 <= i < |rs| ensures AuthorKnown(rs[i], keys, posts', comments') {
      TargetAuthorKeepsShape(rs[i], posts, posts', comments, comments');
    }
  }

  /** Logging an angry or laughing reaction, one from an unknown user, or
      one naming a missing target changes nothing in the next drift pass. */
  lemma DriftAllIgnoresInert(users: map<int, User>, posts: seq<Post>,
                             comments: seq<Comment>, rs: seq<Reaction>, r: Reaction)
    requires DenseUserIds(users) && AuthorsPresent(users.Keys, posts, comments, rs + [r])
    requires Inert(r, users.Keys, posts, comments)
    ensures AuthorsPresent(users.Keys, posts, comments, rs)
    ensures DriftAll(users, posts, comments, rs + [r]) == DriftAll(users, posts, comments, rs)
  {
    DriftUpToIgnoresInert(users, |users|, posts, comments, rs, r);
  }

  // ---------------------------------------------------------------------
  // The drift rule is a convex combination

  /** Each drifted coordinate is 0.9 of the old value and 0.1 of the mean
      target value, so its distance to that mean shrinks to exactly 0.9 of
      what it was, and it stays in [-1, 1] when the old value and all
      target values do. */
  lemma DriftedIsConvex(p: Profile, targets: seq<Profile>, d: Dim)
    requires |targets| > 0
    ensures Drifted(p, targets).Get(d) == 0.9 * p.Get(d) + 0.1 * Mean(Values(targets, d))
    ensures Drifted(p, targets).Get(d) - Mean(Values(targets, d))
         == 0.9 * (p.Get(d) - Mean(Values(targets, d)))
    ensures p.InBounds() && (forall i :: 0 <= i < |targets| ==> targets[i].InBounds())
            ==> -1.0 <= Drifted(p, targets).Get(d) <= 1.0
  {
    if p.InBounds() && (forall i :: 0 <= i < |targets| ==> targets[i].InBounds()) {
      var xs := Values(targets, d);
      assert forall i :: 0 <= i < |xs| ==> -1.0 <= xs[i] <= 1.0 by {
        forall i | 0 <= i < |xs| ensures -1.0 <= xs[i] <= 1.0 {
          assert xs[i] == targets[i].Get(d);
        }
      }
      MeanBounds(xs, -1.0, 1.0);
      assert -1.0 <= p.Get(d) <= 1.0;
    }
  }

  lemma DriftedInBounds(p: Profile, targets: seq<Profile>)
    requires |targets| > 0 && p.InBounds()
    requires forall i :: 0 <= i < |targets| ==> targets[i].InBounds()
    ensures Drifted(p, targets).InBounds()
  {
    forall d ensures -1.0 <= Drifted(p, targets).Get(d) <= 1.0 {
      DriftedIsConvex(p, targets, d);
    }
  }

  lemma {:induction false} TargetProfilesInBounds(uid: int, users: map<int, User>, posts: seq<Post>,
                                                  comments: seq<Comment>, rs: seq<Reaction>)
    requires uid in users && AuthorsPresent(users.Keys, posts, comments, rs) && AllInBounds(users)
    ensures forall i :: 0 <= i < |TargetProfiles(uid, users, posts, comments, rs)| ==>
              TargetProfiles(uid, users, posts, comments, rs)[i].InBounds()
  {
    if rs != [] {
      TargetProfilesInBounds(uid, users, posts, comments, rs[..|rs| - 1]);
    }
  }

  lemma {:induction false} DriftUpToInBounds(users: map<int, User>, n: nat, posts: seq<Post>,
                                             comments: seq<Comment>, rs: seq<Reaction>)
    requires forall k :: 1 <= k <= n ==> k in users
    requires AuthorsPresent(users.Keys, posts, comments, rs) && AllInBounds(users)
    ensures AllInBounds(DriftUpTo(users, n, posts, comments, rs))
  {
    if n > 0 {
      DriftUpToInBounds(users, n - 1, posts, comments, rs);
      var before := DriftUpTo(users, n - 1, posts, comments, rs);
      var after := DriftUser(before, n, posts, comments, rs);
      assert DriftUpTo(users, n, posts, comments, rs) == after;
      assert before.Keys == users.Keys;
      var targets := TargetProfiles(n, before, posts, comments, rs);
      if targets != [] {
        TargetProfilesInBounds(n, before, posts, comments, rs);
        DriftedInBounds(before[n].profile, targets);
        assert after[n].profile.InBounds();
      }
      forall k | k in after ensures after[k].profile.InBounds() {
        if k != n {
          assert after[k] == before[k];
        }
      }
    }
  }

  /** A pass over profiles that all lie in [-1, 1] keeps them there. */
  lemma DriftAllInBounds(users: map<int, User>, posts: seq<Post>,
                         comments: seq<Comment>, rs: seq<Reaction>)
    requires DenseUserIds(users) && AuthorsPresent(users.Keys, posts, comments, rs) && AllInBounds(users)
    ensures AllInBounds(DriftAll(users, posts, comments, rs))
  {
    DriftUpToInBounds(users, |users|, posts, comments, rs);
  }
}
