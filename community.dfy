/**
 * The community feed of community_app: posts, the likes on them (at most one
 * per post and user) and the comments under them, with the three views that
 * change them (create a post, toggle a like, add a comment) and the orderings
 * the feed shows them in.
 *
 * The pure functions Toggle, Comment and Publish say what each view does to
 * the tables and what it answers; the class CommunityStore holds the tables
 * as fields and its methods update them as the views do.
 */
module Community {
  import opened Wrappers
  import opened Text
  import opened Users
  import opened QuerySets

  datatype Post = Post(author: UserId, content: string, createdAt: int)
  datatype PostLike = PostLike(post: nat, user: UserId)
  datatype Comment = Comment(post: nat, user: UserId, content: string, createdAt: int)

  type Posts = map<nat, Post>
  type Likes = map<nat, PostLike>
  type Comments = map<nat, Comment>

  /** The tables, keyed by primary key, with the next key each table hands out. */
  datatype Feed = Feed(posts: Posts, likes: Likes, comments: Comments,
                       nextPostId: nat, nextLikeId: nat, nextCommentId: nat)

  /** What the client sent: only a POST made by XMLHttpRequest reaches the like and comment views. */
  datatype Request = Request(httpMethod: string, requestedWith: Option<string>)

  predicate IsAjaxPost(request: Request)
  {
    request.httpMethod == "POST" && request.requestedWith == Some("XMLHttpRequest")
  }

  // ---------------------------------------------------------------------------
  // Counts and the uniqueness of likes

  /** The like rows of a post. */
  function LikeRowsOf(likes: Likes, post: nat): set<nat>
  {
    set k | k in likes && likes[k].post == post
  }

  /** likes_count: the number of like rows of the post. */
  function LikesCount(likes: Likes, post: nat): nat
  {
    |LikeRowsOf(likes, post)|
  }

  /** comments_count: the number of comment rows of the post. */
  function CommentsCount(comments: Comments, post: nat): nat
  {
    |CommentRowsOf(comments, post)|
  }

  /** The comment rows of a post. */
  function CommentRowsOf(comments: Comments, post: nat): set<nat>
  {
    set k | k in comments && comments[k].post == post
  }

  /** The (post, user) pairs that have a like row. */
  function LikedPairs(likes: Likes): set<(nat, UserId)>
  {
    set k | k in likes :: (likes[k].post, likes[k].user)
  }

  predicate HasLiked(likes: Likes, post: nat, user: UserId)
  {
    exists k :: k in likes && likes[k].post == post && likes[k].user == user
  }

  /** unique_together (post, user): no two like rows share a post and a user. */
  predicate UniqueLikes(likes: Likes)
  {
    forall i, j :: i in likes && j in likes && i != j ==> likes[i] != likes[j]
  }

  /** The most a comment may hold. */
  const MaxCommentLength := 500

  /** What the feed's tables keep across every view. */
  ghost predicate FeedInvariant(f: Feed)
  {
    && UniqueLikes(f.likes)
    && (forall k :: k in f.posts ==> k < f.nextPostId)
    && (forall k :: k in f.likes ==> k < f.nextLikeId && f.likes[k].post in f.posts)
    && (forall k :: k in f.comments ==> k < f.nextCommentId && f.comments[k].post in f.posts)
    && (forall k :: k in f.comments ==> |f.comments[k].content| <= MaxCommentLength)
  }

  /** The ids of the posts a user has liked, as the feed marks them. */
  function LikedPostIds(likes: Likes, user: UserId): (r: set<nat>)
    ensures forall p :: p in r <==> (p, user) in LikedPairs(likes)
  {
    set k | k in likes && likes[k].user == user :: likes[k].post
  }

  // ---------------------------------------------------------------------------
  // toggle_post_like

  datatype LikeAction = Liked | Unliked

  datatype ToggleResponse =
    | ToggleBadRequest
    | PostNotFound
    | Toggled(action: LikeAction, newCount: nat)

  /** The like rows without those of (post, user). */
  function WithoutLike(likes: Likes, post: nat, user: UserId): (r: Likes)
    ensures forall k :: k in r <==> k in likes && !(likes[k].post == post && likes[k].user == user)
    ensures forall k :: k in r ==> r[k] == likes[k]
  {
    map k | k in likes && !(likes[k].post == post && likes[k].user == user) :: likes[k]
  }

  /**
   * toggle_post_like: a bad request unless an AJAX POST; not found for an
   * unknown post; otherwise the actor's like of the post is created when
   * absent and deleted when present, and the answer carries the post's new
   * like count.
   */
  function Toggle(f: Feed, request: Request, postId: nat, actor: UserId): (r: (Feed, ToggleResponse))
    ensures r.1 == ToggleBadRequest <==> !IsAjaxPost(request)
    ensures r.1 == PostNotFound <==> IsAjaxPost(request) && postId !in f.posts
    ensures !r.1.Toggled? ==> r.0 == f
    ensures r.1.Toggled? ==> r.1.newCount == LikesCount(r.0.likes, postId)
    ensures r.1.Toggled? ==> (r.1.action == Liked <==> !HasLiked(f.likes, postId, actor))
    ensures r.1.Toggled? && r.1.action == Unliked ==> r.0.likes == WithoutLike(f.likes, postId, actor)
    ensures r.1.Toggled? && r.1.action == Liked ==> r.0.likes == f.likes[f.nextLikeId := PostLike(postId, actor)]
    ensures r.0.posts == f.posts && r.0.comments == f.comments
  {
    if !IsAjaxPost(request) then (f, ToggleBadRequest)
    else if postId !in f.posts then (f, PostNotFound)
    else if HasLiked(f.likes, postId, actor) then
      var likes := WithoutLike(f.likes, postId, actor);
      (f.(likes := likes), Toggled(Unliked, LikesCount(likes, postId)))
    else
      var likes := f.likes[f.nextLikeId := PostLike(postId, actor)];
      (f.(likes := likes, nextLikeId := f.nextLikeId + 1), Toggled(Liked, LikesCount(likes, postId)))
  }

  /** Removing a user's like of a post removes exactly that pair from the liked pairs. */
  lemma {:induction false} UnlikeRemovesPair(likes: Likes, post: nat, user: UserId)
    ensures LikedPairs(WithoutLike(likes, post, user)) == LikedPairs(likes) - {(post, user)}
  {
    var rest := WithoutLike(likes, post, user);
    forall pair | pair in LikedPairs(likes) && pair != (post, user) ensures pair in LikedPairs(rest) {
      var k :| k in likes && (likes[k].post, likes[k].user) == pair;
      assert k in rest;
    }
  }

  /** Adding a like row under a fresh key adds exactly its pair to the liked pairs. */
  lemma {:induction false} LikeAddsPair(likes: Likes, n: nat, post: nat, user: UserId)
    requires n !in likes
    ensures LikedPairs(likes[n := PostLike(post, user)]) == LikedPairs(likes) + {(post, user)}
  {
    var more := likes[n := PostLike(post, user)];
    assert n in more;
    forall pair | pair in LikedPairs(likes) ensures pair in LikedPairs(more) {
      var k :| k in likes && (likes[k].post, likes[k].user) == pair;
      assert more[k] == likes[k];
    }
  }

  /** The user's like of the post exists exactly when its pair is among the liked pairs. */
  lemma {:induction false} HasLikedIffPair(likes: Likes, post: nat, user: UserId)
    ensures HasLiked(likes, post, user) <==> (post, user) in LikedPairs(likes)
  {
    if (post, user) in LikedPairs(likes) {
      var k :| k in likes && (likes[k].post, likes[k].user) == (post, user);
    }
  }

  /** A toggle adds or removes the actor's pair and touches no other (post, user) pair. */
  lemma {:induction false} ToggleFlipsOnePair(f: Feed, request: Request, postId: nat, actor: UserId)
    requires FeedInvariant(f)
    requires Toggle(f, request, postId, actor).1.Toggled?
    ensures var r := Toggle(f, request, postId, actor);
      && (r.1.action == Liked ==> LikedPairs(r.0.likes) == LikedPairs(f.likes) + {(postId, actor)})
      && (r.1.action == Unliked ==> LikedPairs(r.0.likes) == LikedPairs(f.likes) - {(postId, actor)})
      && (r.1.action == Liked <==> (postId, actor) !in LikedPairs(f.likes))
  {
    HasLikedIffPair(f.likes, postId, actor);
    if HasLiked(f.likes, postId, actor) {
      UnlikeRemovesPair(f.likes, postId, actor);
    } else {
      LikeAddsPair(f.likes, f.nextLikeId, postId, actor);
    }
  }

  /** Toggle keeps the feed invariant. */
  lemma {:induction false} ToggleKeepsInvariant(f: Feed, request: Request, postId: nat, actor: UserId)
    requires FeedInvariant(f)
    ensures FeedInvariant(Toggle(f, request, postId, actor).0)
  {
    var g := Toggle(f, request, postId, actor).0;
    if IsAjaxPost(request) && postId in f.posts && !HasLiked(f.likes, postId, actor) {
      forall i, j | i in g.likes && j in g.likes && i != j ensures g.likes[i] != g.likes[j] {
        if i == f.nextLikeId {
          assert g.likes[j] == f.likes[j];
        } else if j == f.nextLikeId {
          assert g.likes[i] == f.likes[i];
        }
      }
    }
  }

  /** Under unique likes, dropping the user's like of the post leaves one row fewer for that post and the same rows for any other. */
  lemma {:induction false} UnlikeCountsOne(likes: Likes, post: nat, user: UserId, other: nat)
    requires UniqueLikes(likes) && HasLiked(likes, post, user) && other != post
    ensures LikesCount(WithoutLike(likes, post, user), post) == LikesCount(likes, post) - 1
    ensures LikeRowsOf(WithoutLike(likes, post, user), other) == LikeRowsOf(likes, other)
  {
    var rest := WithoutLike(likes, post, user);
    var k :| k in likes && likes[k].post == post && likes[k].user == user;
    forall j | j in LikeRowsOf(likes, post) && j != k ensures j in LikeRowsOf(rest, post) {
      assert likes[j] != likes[k];
    }
    assert LikeRowsOf(rest, post) == LikeRowsOf(likes, post) - {k};
  }

  /** A row under a fresh key adds one row to its post and none to any other. */
  lemma {:induction false} LikeCountsOne(likes: Likes, n: nat, post: nat, user: UserId, other: nat)
    requires n !in likes && other != post
    ensures LikesCount(likes[n := PostLike(post, user)], post) == LikesCount(likes, post) + 1
    ensures LikeRowsOf(likes[n := PostLike(post, user)], other) == LikeRowsOf(likes, other)
  {
    assert LikeRowsOf(likes[n := PostLike(post, user)], post) == LikeRowsOf(likes, post) + {n};
  }

  /** A like moves the post's count up by one, an unlike down by one; other posts' counts stay. */
  lemma {:induction false} ToggleMovesCountByOne(f: Feed, request: Request, postId: nat, actor: UserId, other: nat)
    requires FeedInvariant(f)
    requires Toggle(f, request, postId, actor).1.Toggled?
    requires other != postId
    ensures var r := Toggle(f, request, postId, actor);
      && (r.1.action == Liked ==> r.1.newCount == LikesCount(f.likes, postId) + 1)
      && (r.1.action == Unliked ==> r.1.newCount == LikesCount(f.likes, postId) - 1)
      && LikesCount(r.0.likes, other) == LikesCount(f.likes, other)
  {
    if HasLiked(f.likes, postId, actor) {
      UnlikeCountsOne(f.likes, postId, actor, other);
    } else {
      LikeCountsOne(f.likes, f.nextLikeId, postId, actor, other);
    }
  }

  /** Toggling twice puts the likes back as they were: the same pairs, the same count. */
  lemma {:induction false} ToggleTwiceRestores(f: Feed, request: Request, postId: nat, actor: UserId)
    requires FeedInvariant(f)
    requires IsAjaxPost(request) && postId in f.posts
    ensures var once := Toggle(f, request, postId, actor);
      var twice := Toggle(once.0, request, postId, actor);
      && LikedPairs(twice.0.likes) == LikedPairs(f.likes)
      && LikesCount(twice.0.likes, postId) == LikesCount(f.likes, postId)
      && twice.1.action != once.1.action
  {
    var once := Toggle(f, request, postId, actor);
    ToggleKeepsInvariant(f, request, postId, actor);
    ToggleFlipsOnePair(f, request, postId, actor);
    ToggleFlipsOnePair(once.0, request, postId, actor);
    ToggleMovesCountByOne(f, request, postId, actor, postId + 1);
    ToggleMovesCountByOne(once.0, request, postId, actor, postId + 1);
  }

  // ---------------------------------------------------------------------------
  // add_comment

  datatype CommentError = ContentRequired | ContentTooLong

  /**
   * The comment form's content field: surrounding whitespace is stripped, an
   * empty result is missing, and more than 500 characters is too long.
   */
  function CleanCommentContent(raw: Option<string>): (r: Result<string, CommentError>)
    ensures r == Err(ContentRequired) <==> raw.None? || AllSpace(raw.value, Python)
    ensures r == Err(ContentTooLong) <==> raw.Some? && |Strip(raw.value, Python)| > MaxCommentLength
    ensures r.Ok? ==> r.value == Strip(raw.value, Python) && Trimmed(r.value, Python)
                      && 1 <= |r.value| <= MaxCommentLength
  {
    var content := if raw.Some? then Strip(raw.value, Python) else "";
    if content == [] then Err(ContentRequired)
    else if |content| > MaxCommentLength then Err(ContentTooLong)
    else Ok(content)
  }

  datatype CommentResponse =
    | CommentBadRequest
    | CommentPostNotFound
    | CommentInvalid(error: CommentError, postId: nat)
    | CommentAdded(newCount: nat, content: string, userFullName: string, businessName: string, createdAt: int)

  /** The name shown beside a comment: the business profile's company name, "SME User" without one. */
  function BusinessName(companyName: Option<string>): (name: string)
    ensures companyName.Some? ==> name == companyName.value
    ensures companyName.None? ==> name == "SME User"
  {
    if companyName.Some? then companyName.value else "SME User"
  }

  /**
   * add_comment: a bad request unless an AJAX POST; not found for an unknown
   * post; an invalid form answers with its error (status 400) and adds
   * nothing; a valid one adds one comment of the actor on the post, and the
   * answer carries the post's new comment count. The actor's names and
   * business profile name are passed in; the time is now.
   */
  function AddComment(f: Feed, request: Request, postId: nat, actor: UserId, rawContent: Option<string>,
                      firstName: string, lastName: string, companyName: Option<string>, now: int): (r: (Feed, CommentResponse))
    ensures r.1 == CommentBadRequest <==> !IsAjaxPost(request)
    ensures r.1 == CommentPostNotFound <==> IsAjaxPost(request) && postId !in f.posts
    ensures r.1.CommentInvalid? <==> IsAjaxPost(request) && postId in f.posts && CleanCommentContent(rawContent).Err?
    ensures !r.1.CommentAdded? ==> r.0 == f
    ensures r.1.CommentAdded? ==>
      && r.0 == f.(comments := f.comments[f.nextCommentId := Comment(postId, actor, r.1.content, now)],
                   nextCommentId := f.nextCommentId + 1)
      && r.1.content == CleanCommentContent(rawContent).value
      && r.1.newCount == CommentsCount(r.0.comments, postId)
      && r.1.userFullName == firstName + " " + lastName
      && r.1.businessName == (if companyName.Some? then companyName.value else "SME User")
      && r.1.createdAt == now
    ensures r.1.CommentInvalid? ==> Err(r.1.error) == CleanCommentContent(rawContent) && r.1.postId == postId
  {
    if !IsAjaxPost(request) then (f, CommentBadRequest)
    else if postId !in f.posts then (f, CommentPostNotFound)
    else
      match CleanCommentContent(rawContent)
      case Err(e) => (f, CommentInvalid(e, postId))
      case Ok(content) =>
        var comments := f.comments[f.nextCommentId := Comment(postId, actor, content, now)];
        (f.(comments := comments, nextCommentId := f.nextCommentId + 1),
         CommentAdded(CommentsCount(comments, postId), content, firstName + " " + lastName, BusinessName(companyName), now))
  }

  /** AddComment keeps the feed invariant; in particular no stored comment exceeds 500 characters. */
  lemma {:induction false} AddCommentKeepsInvariant(f: Feed, request: Request, postId: nat, actor: UserId,
      rawContent: Option<string>, firstName: string, lastName: string, companyName: Option<string>, now: int)
    requires FeedInvariant(f)
    ensures FeedInvariant(AddComment(f, request, postId, actor, rawContent, firstName, lastName, companyName, now).0)
  {
  }

  /** An added comment raises its post's count by exactly one and leaves other posts' counts alone. */
  lemma {:induction false} AddCommentCountsOne(f: Feed, request: Request, postId: nat, actor: UserId,
      rawContent: Option<string>, firstName: string, lastName: string, companyName: Option<string>, now: int, other: nat)
    requires FeedInvariant(f)
    requires other != postId
    ensures var r := AddComment(f, request, postId, actor, rawContent, firstName, lastName, companyName, now);
      && (r.1.CommentAdded? ==> r.1.newCount == CommentsCount(f.comments, postId) + 1)
      && CommentsCount(r.0.comments, other) == CommentsCount(f.comments, other)
  {
    var r := AddComment(f, request, postId, actor, rawContent, firstName, lastName, companyName, now);
    if r.1.CommentAdded? {
      NewCommentCountsOne(f.comments, f.nextCommentId, r.0.comments[f.nextCommentId], other);
    }
  }

  /** A comment under a fresh key adds one row to its post and none to any other. */
  lemma {:induction false} NewCommentCountsOne(comments: Comments, n: nat, c: Comment, other: nat)
    requires n !in comments && other != c.post
    ensures CommentsCount(comments[n := c], c.post) == CommentsCount(comments, c.post) + 1
    ensures CommentRowsOf(comments[n := c], other) == CommentRowsOf(comments, other)
  {
    assert CommentRowsOf(comments[n := c], c.post) == CommentRowsOf(comments, c.post) + {n};
  }

  // ---------------------------------------------------------------------------
  // create_community_post

  /**
   * create_community_post: a POST whose content is not blank adds a post of
   * the actor, stripped of surrounding whitespace; anything else changes
   * nothing. Either way the view redirects to the feed.
   */
  function Publish(f: Feed, httpMethod: string, actor: UserId, rawContent: Option<string>, now: int): (r: Feed)
    ensures var added := httpMethod == "POST" && rawContent.Some? && !AllSpace(rawContent.value, Python);
      && (!added ==> r == f)
      && (added ==> r == f.(posts := f.posts[f.nextPostId := Post(actor, Strip(rawContent.value, Python), now)],
                           nextPostId := f.nextPostId + 1))
    ensures r.likes == f.likes && r.comments == f.comments
  {
    if httpMethod == "POST" && rawContent.Some? && Strip(rawContent.value, Python) != [] then
      f.(posts := f.posts[f.nextPostId := Post(actor, Strip(rawContent.value, Python), now)],
         nextPostId := f.nextPostId + 1)
    else f
  }

  lemma {:induction false} PublishKeepsInvariant(f: Feed, httpMethod: string, actor: UserId, rawContent: Option<string>, now: int)
    requires FeedInvariant(f)
    ensures FeedInvariant(Publish(f, httpMethod, actor, rawContent, now))
  {
    var g := Publish(f, httpMethod, actor, rawContent, now);
    assert g.likes == f.likes && g.comments == f.comments && g.nextLikeId == f.nextLikeId && g.nextCommentId == f.nextCommentId;
    assert f.posts.Keys <= g.posts.Keys;
    assert forall k :: k in g.posts ==> k < g.nextPostId;
  }

  // ---------------------------------------------------------------------------
  // The orderings of the feed

  function PostCreatedAt(p: Post): int { p.createdAt }
  function CommentCreatedAt(c: Comment): int { c.createdAt }

  /** The feed lists the posts newest first. */
  function NewestFirst(posts: seq<Post>): (r: seq<Post>)
    ensures Descending(r, PostCreatedAt)
    ensures multiset(r) == multiset(posts)
  {
    SortDescending(posts, PostCreatedAt)
  }

  /** Under a post, its comments are listed oldest first, and there are comments_count of them. */
  function CommentThread(comments: seq<Comment>, post: nat): (r: seq<Comment>)
    ensures Ascending(r, CommentCreatedAt)
    ensures forall c :: multiset(r)[c] == if c.post == post then multiset(comments)[c] else 0
  {
    SortAscending(Where(comments, (c: Comment) => c.post == post), CommentCreatedAt)
  }

  // ---------------------------------------------------------------------------
  // The views over mutable tables

  class CommunityStore {
    var posts: Posts
    var likes: Likes
    var comments: Comments
    var nextPostId: nat
    var nextLikeId: nat
    var nextCommentId: nat

    function State(): Feed
      reads this
    {
      Feed(posts, likes, comments, nextPostId, nextLikeId, nextCommentId)
    }

    ghost predicate Valid()
      reads this
    {
      FeedInvariant(State())
    }

    constructor ()
      ensures Valid()
      ensures posts == map[] && likes == map[] && comments == map[]
    {
      posts, likes, comments := map[], map[], map[];
      nextPostId, nextLikeId, nextCommentId := 0, 0, 0;
    }

    method CreateCommunityPost(httpMethod: string, actor: UserId, rawContent: Option<string>, now: int)
      requires Valid()
      modifies this
      ensures Valid()
      ensures State() == Publish(old(State()), httpMethod, actor, rawContent, now)
    {
      ghost var before := State();
      PublishKeepsInvariant(before, httpMethod, actor, rawContent, now);
      if httpMethod == "POST" && rawContent.Some? {
        var content := Strip(rawContent.value, Python);
        if content != [] {
          posts := posts[nextPostId := Post(actor, content, now)];
          nextPostId := nextPostId + 1;
        }
      }
      assert State() == Publish(before, httpMethod, actor, rawContent, now);
    }

    method TogglePostLike(request: Request, postId: nat, actor: UserId) returns (response: ToggleResponse)
      requires Valid()
      modifies this
      ensures Valid()
      ensures (State(), response) == Toggle(old(State()), request, postId, actor)
    {
      ghost var before := State();
      ToggleKeepsInvariant(before, request, postId, actor);
      if !IsAjaxPost(request) {
        return ToggleBadRequest;
      }
      if postId !in posts {
        return PostNotFound;
      }
      var action;
      if HasLiked(likes, postId, actor) {
        likes := WithoutLike(likes, postId, actor);
        action := Unliked;
      } else {
        likes := likes[nextLikeId := PostLike(postId, actor)];
        nextLikeId := nextLikeId + 1;
        action := Liked;
      }
      response := Toggled(action, LikesCount(likes, postId));
      assert (State(), response) == Toggle(before, request, postId, actor);
    }

    method AddPostComment(request: Request, postId: nat, actor: UserId, rawContent: Option<string>,
                          firstName: string, lastName: string, companyName: Option<string>, now: int)
      returns (response: CommentResponse)
      requires Valid()
      modifies this
      ensures Valid()
      ensures (State(), response) == AddComment(old(State()), request, postId, actor, rawContent, firstName, lastName, companyName, now)
    {
      ghost var before := State();
      AddCommentKeepsInvariant(before, request, postId, actor, rawContent, firstName, lastName, companyName, now);
      if !IsAjaxPost(request) {
        return CommentBadRequest;
      }
      if postId !in posts {
        return CommentPostNotFound;
      }
      var cleaned := CleanCommentContent(rawContent);
      if cleaned.Err? {
        return CommentInvalid(cleaned.error, postId);
      }
      comments := comments[nextCommentId := Comment(postId, actor, cleaned.value, now)];
      nextCommentId := nextCommentId + 1;
      response := CommentAdded(CommentsCount(comments, postId), cleaned.value, firstName + " " + lastName,
                               BusinessName(companyName), now);
      assert (State(), response) == AddComment(before, request, postId, actor, rawContent, firstName, lastName, companyName, now);
    }
  }
}
