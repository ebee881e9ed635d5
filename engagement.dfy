/** The entities of the engagement store and the lookups the handlers use
    to resolve a reaction's target. */
module Engagement {
  import opened Profiles

  datatype Option<T> = None | Some(value: T)

  /** The six listed reaction kinds; any other string is kept as `Unlisted`,
      since the handlers accept whatever kind the request names. */
  datatype ReactionKind = Like | Love | Angry | Laugh | Interested | Empathy | Unlisted(name: string)
  {
    /** The affiliative kinds that pull a user's profile toward an author. */
    predicate IsPositive(): (b: bool)
      ensures b <==> this in {Like, Love, Interested, Empathy}
      ensures Angry? || Laugh? || Unlisted? ==> !b
    {
      Like? || Love? || Interested? || Empathy?
    }

    /** The string a request uses for this kind. */
    function Name(): string
    {
      match this
      case Like => "like"
      case Love => "love"
      case Angry => "angry"
      case Laugh => "laugh"
      case Interested => "interested"
      case Empathy => "empathy"
      case Unlisted(n) => n
    }

    /** Each kind has one representation: a listed name is never `Unlisted`. */
    predicate Canonical()
    {
      Unlisted? ==> name !in ListedKindNames
    }
  }

  /** The names of the six listed reaction kinds. */
  const ListedKindNames: set<string> := {"like", "love", "angry", "laugh", "interested", "empathy"}

  /** The kind a request's reaction-type string stands for. */
  function ParseKind(s: string): (k: ReactionKind)
    ensures k.Canonical()
    ensures k.Unlisted? <==> s !in ListedKindNames
  {
    if s == "like" then Like
    else if s == "love" then Love
    else if s == "angry" then Angry
    else if s == "laugh" then Laugh
    else if s == "interested" then Interested
    else if s == "empathy" then Empathy
    else Unlisted(s)
  }

  /** Parsing and naming are inverse: every string names exactly one
      canonical kind, and every canonical kind is named by its string. */
  lemma KindRoundTrip(s: string, k: ReactionKind)
    requires k.Canonical()
    ensures ParseKind(s).Name() == s
    ensures ParseKind(k.Name()) == k
  {
  }

  /** What a reaction names as its target; any string other than
      "post" or "comment" is kept as `OtherTarget`. */
  datatype TargetKind = PostTarget | CommentTarget | OtherTarget(name: string)
  {
    /** The string a request uses for this target type. */
    function Name(): string
    {
      match this
      case PostTarget => "post"
      case CommentTarget => "comment"
      case OtherTarget(n) => n
    }

    /** Each target type has one representation. */
    predicate Canonical()
    {
      OtherTarget? ==> name != "post" && name != "comment"
    }
  }

  /** The target type a request's target-type string stands for. */
  function ParseTarget(s: string): (t: TargetKind)
    ensures t.Canonical()
    ensures t.OtherTarget? <==> s != "post" && s != "comment"
  {
    if s == "post" then PostTarget
    else if s == "comment" then CommentTarget
    else OtherTarget(s)
  }

  lemma TargetRoundTrip(s: string, t: TargetKind)
    requires t.Canonical()
    ensures ParseTarget(s).Name() == s
    ensures ParseTarget(t.Name()) == t
  {
  }

  datatype User = User(id: int, name: string, profile: Profile)

  /** The lightweight copy of a reaction kept on its target. */
  datatype Summary = Summary(userId: int, kind: ReactionKind)

  datatype Post = Post(id: int, authorId: int, content: string,
                       reactions: seq<Summary>, diversityScore: real)

  datatype Comment = Comment(id: int, postId: int, authorId: int, content: string,
                             reactions: seq<Summary>, diversityScore: real)

  datatype Reaction = Reaction(userId: int, target: TargetKind, targetId: int, kind: ReactionKind)

  /** Users are keyed 1..n, each under its own id: what assigning
      `len(users) + 1` to every new user produces. */
  ghost predicate DenseUserIds(users: map<int, User>)
  {
    (forall k :: k in users <==> 1 <= k <= |users|) &&
    (forall k :: k in users ==> users[k].id == k)
  }

  predicate AllInBounds(users: map<int, User>)
  {
    forall k :: k in users ==> users[k].profile.InBounds()
  }

  /** Posts carry ids 1..n in creation order. */
  predicate SequentialPostIds(posts: seq<Post>)
  {
    forall i :: 0 <= i < |posts| ==> posts[i].id == i + 1
  }

  predicate SequentialCommentIds(comments: seq<Comment>)
  {
    forall i :: 0 <= i < |comments| ==> comments[i].id == i + 1
  }

  /** The index of the first post with the given id, if any. */
  function FindPost(posts: seq<Post>, id: int): (r: Option<nat>)
    ensures r.Some? ==> r.value < |posts| && posts[r.value].id == id
    ensures r.Some? ==> forall j :: 0 <= j < r.value ==> posts[j].id != id
    ensures r.None? ==> forall j :: 0 <= j < |posts| ==> posts[j].id != id
  {
    if posts == [] then None
    else if posts[0].id == id then Some(0)
    else match FindPost(posts[1..], id)
      case None => None
      case Some(i) => Some(i + 1)
  }

  /** The index of the first comment with the given id, if any. */
  function FindComment(comments: seq<Comment>, id: int): (r: Option<nat>)
    ensures r.Some? ==> r.value < |comments| && comments[r.value].id == id
    ensures r.Some? ==> forall j :: 0 <= j < r.value ==> comments[j].id != id
    ensures r.None? ==> forall j :: 0 <= j < |comments| ==> comments[j].id != id
  {
    if comments == [] then None
    else if comments[0].id == id then Some(0)
    else match FindComment(comments[1..], id)
      case None => None
      case Some(i) => Some(i + 1)
  }

  /** With post ids 1..n, id k resolves to index k - 1, and nothing else resolves. */
  lemma FindPostSequential(posts: seq<Post>, id: int)
    requires SequentialPostIds(posts)
    ensures FindPost(posts, id) == if 1 <= id <= |posts| then Some(id - 1) else None
  {
    if 1 <= id <= |posts| {
      assert posts[id - 1].id == id;
    }
  }

  /** The same for comment ids. */
  lemma FindCommentSequential(comments: seq<Comment>, id: int)
    requires SequentialCommentIds(comments)
    ensures FindComment(comments, id) == if 1 <= id <= |comments| then Some(id - 1) else None
  {
    if 1 <= id <= |comments| {
      assert comments[id - 1].id == id;
    }
  }

  /** The author of the post or comment a reaction names, when that target exists. */
  function TargetAuthor(r: Reaction, posts: seq<Post>, comments: seq<Comment>): (a: Option<int>)
    ensures a.Some? <==>
              (r.target == PostTarget && FindPost(posts, r.targetId).Some?) ||
              (r.target == CommentTarget && FindComment(comments, r.targetId).Some?)
    ensures r.target == PostTarget && a.Some? ==>
              a.value == posts[FindPost(posts, r.targetId).value].authorId
    ensures r.target == CommentTarget && a.Some? ==>
              a.value == comments[FindComment(comments, r.targetId).value].authorId
  {
    match r.target
    case PostTarget =>
      (match FindPost(posts, r.targetId)
       case Some(i) => Some(posts[i].authorId)
       case None => None)
    case CommentTarget =>
      (match FindComment(comments, r.targetId)
       case Some(i) => Some(comments[i].authorId)
       case None => None)
    case OtherTarget(_) => None
  }

  /** Lookups see only ids: sequences with the same ids resolve every id alike. */
  lemma {:induction false} FindSameIds(posts: seq<Post>, posts': seq<Post>,
                                       comments: seq<Comment>, comments': seq<Comment>, id: int)
    requires |posts'| == |posts| && |comments'| == |comments|
    requires forall i :: 0 <= i < |posts| ==> posts'[i].id == posts[i].id
    requires forall i :: 0 <= i < |comments| ==> comments'[i].id == comments[i].id
    ensures FindPost(posts', id) == FindPost(posts, id)
    ensures FindComment(comments', id) == FindComment(comments, id)
  {
    if posts != [] && comments != [] {
      FindSameIds(posts[1..], posts'[1..], comments[1..], comments'[1..], id);
    } else if posts != [] {
      FindSameIds(posts[1..], posts'[1..], comments, comments', id);
    } else if comments != [] {
      FindSameIds(posts, posts', comments[1..], comments'[1..], id);
    }
  }

  /** Re-scoring posts and comments while keeping their ids and authors
      leaves every reaction's resolved author as it was. */
  lemma TargetAuthorKeepsShape(r: Reaction, posts: seq<Post>, posts': seq<Post>,
                               comments: seq<Comment>, comments': seq<Comment>)
    requires |posts'| == |posts| && |comments'| == |comments|
    requires forall i :: 0 <= i < |posts| ==> posts'[i].id == posts[i].id && posts'[i].authorId == posts[i].authorId
    requires forall i :: 0 <= i < |comments| ==>
               comments'[i].id == comments[i].id && comments'[i].authorId == comments[i].authorId
    ensures TargetAuthor(r, posts', comments') == TargetAuthor(r, posts, comments)
  {
    FindSameIds(posts, posts', comments, comments', r.targetId);
  }

  /** The logged reactions naming the given target, in log order. */
  function ReactionsTo(rs: seq<Reaction>, target: TargetKind, id: int): (r: seq<Reaction>)
    ensures forall i :: 0 <= i < |r| ==> r[i].target == target && r[i].targetId == id
    ensures forall x :: multiset(r)[x] == if x.target == target && x.targetId == id then multiset(rs)[x] else 0
  {
    if rs == [] then []
    else
      assert rs == [rs[0]] + rs[1..];
      (if rs[0].target == target && rs[0].targetId == id then [rs[0]] else []) + ReactionsTo(rs[1..], target, id)
  }
}
