/**
 * The in-memory store of src/api.ts. Its module-level `let` arrays become the
 * fields of `MockStore`; each promise-returning member becomes a method that runs
 * to completion (the `setTimeout` latency is left out). Getters that only filter,
 * sort and slice become functions of the fields, with their properties as lemmas.
 */
module MockApi {
  import opened Common
  import opened Model
  import opened Sorting
  import opened Reactions
  import opened ReplyClosure

  /** The rejections of the mock store (the Error messages of api.ts). */
  datatype ApiError = AccountBlocked | PhotoNotFound | CommentNotFound

  function CommentKey(c: Comment): Id { c.id }

  function PhotoKey(p: Photo): Id { p.id }

  function Credentials(u: User): (string, string) { (u.name, u.password) }

  // ------------------------------------------------------------------ users

  /**
   * `login`: the first user with this name and password; a blocked one is
   * rejected, and no match resolves to nothing rather than failing.
   */
  function Login(users: seq<User>, name: string, password: string): (r: Result<Option<User>, ApiError>)
    ensures r == Ok(None) <==> forall u :: u in users ==> Credentials(u) != (name, password)
    ensures r.Err? ==> r.error == AccountBlocked
    ensures r.Err? || r.value.Some? ==>
              exists i :: 0 <= i < |users| && Credentials(users[i]) == (name, password) && users[i].isBlocked == r.Err?
    ensures r.Ok? && r.value.Some? ==>
              r.value.value in users && Credentials(r.value.value) == (name, password) && !r.value.value.isBlocked
    ensures forall i :: 0 <= i < |users| && Credentials(users[i]) == (name, password) &&
                        (forall j :: 0 <= j < i ==> Credentials(users[j]) != (name, password)) ==>
              r == if users[i].isBlocked then Err(AccountBlocked) else Ok(Some(users[i]))
  {
    var i := KeyIndex(users, Credentials, (name, password));
    if i < 0 then Ok(None)
    else if users[i].isBlocked then Err(AccountBlocked)
    else Ok(Some(users[i]))
  }

  /** `updateUserStatus`: every user with the id gets the flag; nothing else changes. */
  function SetBlocked(users: seq<User>, id: UserId, blocked: bool): (r: seq<User>)
    ensures |r| == |users|
    ensures forall i :: 0 <= i < |r| ==> r[i] == users[i].(isBlocked := r[i].isBlocked)
    ensures forall i :: 0 <= i < |r| ==> r[i].isBlocked == if users[i].id == id then blocked else users[i].isBlocked
  {
    seq(|users|, i requires 0 <= i < |users| => if users[i].id == id then users[i].(isBlocked := blocked) else users[i])
  }

  /** `updateUserCategory`: every user with the id gets the category; nothing else changes. */
  function SetCategory(users: seq<User>, id: UserId, category: Category): (r: seq<User>)
    ensures |r| == |users|
    ensures forall i :: 0 <= i < |r| ==> r[i] == users[i].(category := r[i].category)
    ensures forall i :: 0 <= i < |r| ==> r[i].category == if users[i].id == id then category else users[i].category
  {
    seq(|users|, i requires 0 <= i < |users| => if users[i].id == id then users[i].(category := category) else users[i])
  }

  /** Setting a flag is idempotent, and an unknown id leaves the users alone. */
  lemma SetBlockedIdempotent(users: seq<User>, id: UserId, blocked: bool)
    ensures SetBlocked(SetBlocked(users, id, blocked), id, blocked) == SetBlocked(users, id, blocked)
    ensures (forall u :: u in users ==> u.id != id) ==> SetBlocked(users, id, blocked) == users
  {
    var once := SetBlocked(users, id, blocked);
    var twice := SetBlocked(once, id, blocked);
    assert forall i :: 0 <= i < |users| ==> twice[i] == once[i];
    if forall u :: u in users ==> u.id != id {
      assert forall i :: 0 <= i < |users| ==> once[i] == users[i];
    }
  }

  // ------------------------------------------------------------------- tags

  /** `Set.prototype.add` for each tag in turn: new tags are appended in first-seen order. */
  function AddTags(known: seq<string>, tags: seq<string>): (r: seq<string>)
    ensures NoDup(known) ==> NoDup(r)
    ensures forall t :: t in r <==> t in known || t in tags
    ensures |known| <= |r| && r[..|known|] == known
    decreases |tags|
  {
    if |tags| == 0 then known
    else if tags[0] in known then AddTags(known, tags[1..])
    else
      var r := AddTags(known + [tags[0]], tags[1..]);
      assert (known + [tags[0]])[..|known|] == known;
      assert r[..|known|] == r[..|known| + 1][..|known|];
      r
  }

  /** `photos.flatMap(p => p.tags)`. */
  function AllPhotoTags(photos: seq<Photo>): (r: seq<string>)
    ensures forall t :: t in r <==> exists p :: p in photos && t in p.tags
  {
    if |photos| == 0 then []
    else
      var rest := AllPhotoTags(photos[1..]);
      assert forall p :: p in photos <==> p == photos[0] || p in photos[1..];
      photos[0].tags + rest
  }

  /** `getAllTags`: the known tags, each once, in code-point order. */
  function SortedTags(known: seq<string>): seq<string> {
    Sort(known, StringOrder)
  }

  lemma SortedTagsCorrect(known: seq<string>)
    requires NoDup(known)
    ensures SortedBy(SortedTags(known), StringOrder)
    ensures multiset(SortedTags(known)) == multiset(known)
    ensures NoDup(SortedTags(known))
  {
    StringOrderTotal();
    SortCorrect(known, StringOrder);
    NoDupCounts(known);
    NoDupCounts(SortedTags(known));
  }

  // --------------------------------------------------------------- comments

  /** `getCommentsForPhoto`: that photo's comments, in store order. */
  function CommentsForPhoto(cs: seq<Comment>, photoId: Id): (r: seq<Comment>)
    ensures forall c :: c in r <==> c in cs && c.photoId == photoId
  {
    FilterMembers(cs, (c: Comment) => c.photoId == photoId);
    Filter(cs, (c: Comment) => c.photoId == photoId)
  }

  /** A comment posted afterwards is listed after all earlier ones, and only for its own photo. */
  lemma CommentsForPhotoAfterPost(cs: seq<Comment>, c: Comment, photoId: Id)
    ensures CommentsForPhoto(cs + [c], photoId) ==
            CommentsForPhoto(cs, photoId) + if c.photoId == photoId then [c] else []
  {
    FilterConcat(cs, [c], (c: Comment) => c.photoId == photoId);
  }

  /** The comparator `b.createdAt - a.createdAt`: `a` may precede `b` when it is at least as new. */
  const NewestFirst: (Comment, Comment) -> bool := (a: Comment, b: Comment) => a.createdAt >= b.createdAt

  lemma NewestFirstTotal()
    ensures TotalPreorder(NewestFirst)
  {
  }

  /** Array.prototype.slice(0, end): a negative end counts back from the end of the array. */
  function SliceTo<T>(s: seq<T>, end: int): (r: seq<T>)
    ensures |r| == if end >= 0 then Min(end, |s|) else Max(|s| + end, 0)
    ensures r == s[..|r|]
  {
    if end >= 0 then s[..Min(end, |s|)] else s[..Max(|s| + end, 0)]
  }

  /** `getLatestComments`: stable sort by recency, then `slice(0, limit)`; the limit is not clamped. */
  function LatestComments(cs: seq<Comment>, limit: int): seq<Comment> {
    SliceTo(Sort(cs, NewestFirst), limit)
  }

  /** For a non-negative limit the feed is the `limit` newest comments, newest first. */
  lemma LatestCommentsNewest(cs: seq<Comment>, limit: int)
    requires limit >= 0
    ensures IsTopN(cs, LatestComments(cs, limit), limit, NewestFirst)
  {
    NewestFirstTotal();
    TopNOfSorted(cs, limit, NewestFirst);
    assert LatestComments(cs, limit) == Sort(cs, NewestFirst)[..Min(limit, |cs|)];
  }

  /** A feed long enough to hold every comment lists those posted at the same instant in store order. */
  lemma LatestCommentsTies(cs: seq<Comment>, limit: int, p: Comment)
    requires limit >= |cs|
    ensures Equivalents(LatestComments(cs, limit), NewestFirst, p) == Equivalents(cs, NewestFirst, p)
  {
    NewestFirstTotal();
    SortStable(cs, NewestFirst, p);
    assert LatestComments(cs, limit) == Sort(cs, NewestFirst);
  }

  /** A negative limit drops that many of the oldest comments instead of failing. */
  lemma LatestCommentsNegativeLimit(cs: seq<Comment>, limit: int)
    requires limit < 0
    ensures |LatestComments(cs, limit)| == Max(|cs| + limit, 0)
    ensures IsTopN(cs, LatestComments(cs, limit), Max(|cs| + limit, 0), NewestFirst)
  {
    NewestFirstTotal();
    TopNOfSorted(cs, Max(|cs| + limit, 0), NewestFirst);
    assert LatestComments(cs, limit) == Sort(cs, NewestFirst)[..Max(|cs| + limit, 0)];
  }

  /** The comment a posting creates: the given fields and no reactions. */
  function NewComment(id: Id, photoId: Id, author: string, text: string, parentId: Option<Id>, now: int): (c: Comment)
    ensures c.reactions == map[]
    ensures c.id == id && c.photoId == photoId && c.author == author && c.text == text
    ensures c.parentId == parentId && c.createdAt == now
  {
    Comment(id, photoId, author, text, now, parentId, map[])
  }

  /**
   * `toggleCommentReaction`: the first comment with the id has the user toggled
   * under the emoji; every other comment and every other field is kept.
   */
  function ToggleInStore(cs: seq<Comment>, commentId: Id, emoji: Emoji, u: UserId): (r: seq<Comment>)
    ensures |r| == |cs|
    ensures forall j :: 0 <= j < |cs| ==> r[j] == cs[j].(reactions := r[j].reactions)
    ensures forall j :: 0 <= j < |cs| && j != KeyIndex(cs, CommentKey, commentId) ==> r[j] == cs[j]
  {
    var k := KeyIndex(cs, CommentKey, commentId);
    if k < 0 then cs else cs[k := cs[k].(reactions := ToggleReaction(cs[k].reactions, emoji, u))]
  }

  /** No comment with the id: the toggle changes nothing (and still resolves). */
  lemma ToggleMissingComment(cs: seq<Comment>, commentId: Id, emoji: Emoji, u: UserId)
    requires forall c :: c in cs ==> c.id != commentId
    ensures ToggleInStore(cs, commentId, emoji, u) == cs
  {
    assert KeyIndex(cs, CommentKey, commentId) < 0;
  }

  /**
   * In the first comment with the id, exactly the pair (emoji, user) flips;
   * every other reaction of every comment keeps its membership.
   */
  lemma ToggleInStoreFlips(cs: seq<Comment>, commentId: Id, emoji: Emoji, u: UserId, k: nat)
    requires k < |cs| && cs[k].id == commentId && forall j :: 0 <= j < k ==> cs[j].id != commentId
    requires multiset(ReactorsOf(cs[k].reactions, emoji))[u] <= 1
    ensures HasReacted(ToggleInStore(cs, commentId, emoji, u)[k].reactions, emoji, u) <==> !HasReacted(cs[k].reactions, emoji, u)
    ensures forall e, v :: (e != emoji || v != u) ==>
              (HasReacted(ToggleInStore(cs, commentId, emoji, u)[k].reactions, e, v) <==> HasReacted(cs[k].reactions, e, v))
    ensures forall j :: 0 <= j < |cs| && j != k ==> ToggleInStore(cs, commentId, emoji, u)[j] == cs[j]
  {
    assert KeyIndex(cs, CommentKey, commentId) == k;
    ToggleReactionFlips(cs[k].reactions, emoji, u);
  }

  /**
   * Two identical toggles restore who reacted with what, for every comment;
   * the reactor order may differ and an emoji that was missing keeps an empty list.
   */
  lemma ToggleInStoreTwice(cs: seq<Comment>, commentId: Id, emoji: Emoji, u: UserId)
    requires forall j :: 0 <= j < |cs| ==> multiset(ReactorsOf(cs[j].reactions, emoji))[u] <= 1
    ensures var twice := ToggleInStore(ToggleInStore(cs, commentId, emoji, u), commentId, emoji, u);
            |twice| == |cs| &&
            forall j :: 0 <= j < |cs| ==>
              twice[j] == cs[j].(reactions := twice[j].reactions) &&
              forall e, v :: HasReacted(twice[j].reactions, e, v) <==> HasReacted(cs[j].reactions, e, v)
  {
    var once := ToggleInStore(cs, commentId, emoji, u);
    var k := KeyIndex(cs, CommentKey, commentId);
    if k >= 0 {
      assert forall j :: 0 <= j < |cs| ==> once[j].id == cs[j].id;
      assert KeyIndex(once, CommentKey, commentId) == k;
      ToggleReactionTwice(cs[k].reactions, emoji, u);
    } else {
      assert KeyIndex(once, CommentKey, commentId) < 0;
    }
  }

  // ------------------------------------------------------------ cascade delete

  function LinkOf(c: Comment): Link { Link(c.id, c.parentId) }

  function Links(cs: seq<Comment>): (ls: seq<Link>)
    ensures |ls| == |cs| && forall i :: 0 <= i < |cs| ==> ls[i] == LinkOf(cs[i])
  {
    seq(|cs|, i requires 0 <= i < |cs| => LinkOf(cs[i]))
  }

  /**
   * The inner `for (const child of children)` loop of `deleteComment`: each
   * child not yet doomed is doomed and queued, in order. `added` lists those.
   */
  method VisitChildren(children: seq<Link>, doomed: set<Id>, queue: seq<Id>)
    returns (doomed': set<Id>, queue': seq<Id>, ghost added: seq<Id>)
    ensures doomed' == doomed + Members(added) && queue' == queue + added
    ensures forall x :: x in added ==> x !in doomed && exists l :: l in children && l.id == x
    ensures forall l :: l in children ==> l.id in doomed'
  {
    doomed', queue', added := doomed, queue, [];
    var k := 0;
    while k < |children|
      invariant 0 <= k <= |children|
      invariant doomed' == doomed + Members(added) && queue' == queue + added
      invariant forall x :: x in added ==> x !in doomed && exists j :: 0 <= j < k && children[j].id == x
      invariant forall j :: 0 <= j < k ==> children[j].id in doomed'
    {
      var child := children[k];
      if child.id !in doomed' {
        doomed' := doomed' + {child.id};
        queue' := queue' + [child.id];
        added := added + [child.id];
      }
      k := k + 1;
    }
    forall x | x in added ensures exists l :: l in children && l.id == x {
      var j :| 0 <= j < |children| && children[j].id == x;
      assert children[j] in children;
    }
  }

  /**
   * The breadth-first search of `deleteComment` over `parentId` links with a
   * visited set. Each id enters the queue once, so it stops on cycles too.
   */
  method CollectReplies(ls: seq<Link>, root: Id) returns (doomed: set<Id>)
    ensures IsClosure(ls, root, doomed)
  {
    doomed := {root};
    var queue := [root];
    SearchStart(ls, root);
    while |queue| > 0
      invariant Searching(ls, root, doomed, queue)
      decreases (Ids(ls) + {root}) - doomed, |queue|
    {
      var current := queue[0];
      var children := RepliesTo(ls, current);
      ghost var before, whole := doomed, queue;
      ghost var added;
      doomed, queue, added := VisitChildren(children, doomed, queue[1..]);
      SearchStep(ls, root, before, whole, children, added);
    }
    SearchDone(ls, root, doomed);
  }

  /** What a delete leaves: the comments whose id is not doomed, in store order. */
  function Survivors(cs: seq<Comment>, doomed: set<Id>): (r: seq<Comment>)
    ensures forall c :: c in r <==> c in cs && c.id !in doomed
  {
    FilterMembers(cs, (c: Comment) => c.id !in doomed);
    Filter(cs, (c: Comment) => c.id !in doomed)
  }

  /**
   * After the cascade, no surviving comment replies to a deleted one, and each
   * survivor is kept as often as it was stored.
   */
  lemma SurvivorsNoOrphans(cs: seq<Comment>, root: Id, doomed: set<Id>)
    requires IsClosure(Links(cs), root, doomed)
    ensures forall c :: c in Survivors(cs, doomed) ==> c.parentId.None? || c.parentId.value !in doomed
    ensures forall c :: c in cs && c.id !in doomed ==> multiset(Survivors(cs, doomed))[c] == multiset(cs)[c]
  {
    forall c | c in Survivors(cs, doomed) ensures c.parentId.None? || c.parentId.value !in doomed {
      var i :| 0 <= i < |cs| && cs[i] == c;
      assert Links(cs)[i] in Links(cs);
    }
    forall c | c in cs && c.id !in doomed ensures multiset(Survivors(cs, doomed))[c] == multiset(cs)[c] {
      FilterCount(cs, (c: Comment) => c.id !in doomed, c);
    }
  }

  /** Deleting a set that holds every stored id leaves nothing. */
  lemma SurvivorsNone(cs: seq<Comment>, doomed: set<Id>)
    requires forall c :: c in cs ==> c.id in doomed
    ensures Survivors(cs, doomed) == []
  {
    FilterNone(cs, (c: Comment) => c.id !in doomed);
  }

  /** A reply thread c1 <- c2 <- c3 on one photo: deleting c1 empties that photo's comments. */
  lemma DeleteThreadExample(p: Id, t: int)
    ensures var cs := [NewComment("c1", p, "janka", "a", None, t),
                       NewComment("c2", p, "admin", "b", Some("c1"), t),
                       NewComment("c3", p, "pavel", "c", Some("c2"), t)];
            IsClosure(Links(cs), "c1", {"c1", "c2", "c3"}) &&
            CommentsForPhoto(Survivors(cs, {"c1", "c2", "c3"}), p) == []
  {
    var cs := [NewComment("c1", p, "janka", "a", None, t),
               NewComment("c2", p, "admin", "b", Some("c1"), t),
               NewComment("c3", p, "pavel", "c", Some("c2"), t)];
    var ls := Links(cs);
    assert ls == [Link("c1", None), Link("c2", Some("c1")), Link("c3", Some("c2"))];
    forall t: set<Id> | "c1" in t && Closed(ls, t) ensures {"c1", "c2", "c3"} <= t {
      assert ls[1] in ls && ls[2] in ls;
    }
    FilterNone(cs, (c: Comment) => c.id !in {"c1", "c2", "c3"});
  }

  // ---------------------------------------------------------------- the store

  /** The module-level state of the mock: users, photos, comments and the tag set. */
  class MockStore {
    var users: seq<User>
    var photos: seq<Photo>
    var comments: seq<Comment>
    /** `allTags`, a JavaScript Set: each tag once, in insertion order. */
    var allTags: seq<string>

    ghost predicate Valid()
      reads this
    {
      NoDup(allTags)
    }

    /** The initial data, with `allTags` gathered from every photo's tags. */
    constructor (users0: seq<User>, photos0: seq<Photo>, comments0: seq<Comment>)
      ensures Valid()
      ensures users == users0 && photos == photos0 && comments == comments0
      ensures forall t :: t in allTags <==> exists p :: p in photos0 && t in p.tags
    {
      users := users0;
      photos := photos0;
      comments := comments0;
      allTags := AddTags([], AllPhotoTags(photos0));
    }

    method UpdateUserStatus(userId: UserId, isBlocked: bool)
      modifies this
      ensures users == SetBlocked(old(users), userId, isBlocked)
      ensures photos == old(photos) && comments == old(comments) && allTags == old(allTags)
    {
      users := SetBlocked(users, userId, isBlocked);
    }

    method UpdateUserCategory(userId: UserId, category: Category)
      modifies this
      ensures users == SetCategory(old(users), userId, category)
      ensures photos == old(photos) && comments == old(comments) && allTags == old(allTags)
    {
      users := SetCategory(users, userId, category);
    }

    /**
     * `updatePhotoTags`: the first photo with the id gets the new tags and the
     * tag set learns them; an unknown photo is rejected and nothing changes.
     */
    method UpdatePhotoTags(photoId: Id, tags: seq<string>) returns (r: Result<(), ApiError>)
      requires Valid()
      modifies this
      ensures Valid()
      ensures users == old(users) && comments == old(comments)
      ensures var k := KeyIndex(old(photos), PhotoKey, photoId);
              if k < 0 then r == Err(PhotoNotFound) && photos == old(photos) && allTags == old(allTags)
              else r == Ok(()) && photos == old(photos)[k := old(photos)[k].(tags := tags)] &&
                   allTags == AddTags(old(allTags), tags)
    {
      var k := KeyIndex(photos, PhotoKey, photoId);
      if k > -1 {
        photos := photos[k := photos[k].(tags := tags)];
        allTags := AddTags(allTags, tags);
        r := Ok(());
      } else {
        r := Err(PhotoNotFound);
      }
    }

    /**
     * `postComment`: one comment is appended; the photo is not looked up.
     * `freshId` and `now` stand for the `Date.now()`-based id and timestamp.
     */
    method PostComment(photoId: Id, author: string, text: string, parentId: Option<Id>, freshId: Id, now: int)
      returns (c: Comment)
      modifies this
      ensures c == NewComment(freshId, photoId, author, text, parentId, now)
      ensures comments == old(comments) + [c]
      ensures users == old(users) && photos == old(photos) && allTags == old(allTags)
    {
      c := NewComment(freshId, photoId, author, text, parentId, now);
      comments := comments + [c];
    }

    method ToggleCommentReaction(commentId: Id, emoji: Emoji, userId: UserId)
      modifies this
      ensures comments == ToggleInStore(old(comments), commentId, emoji, userId)
      ensures users == old(users) && photos == old(photos) && allTags == old(allTags)
    {
      var k := KeyIndex(comments, CommentKey, commentId);
      if k >= 0 {
        var c := comments[k];
        comments := comments[k := c.(reactions := ToggleReaction(c.reactions, emoji, userId))];
      }
    }

    /**
     * `deleteComment`: an unknown id is rejected and nothing changes; otherwise
     * the comment and everything that replies to it, transitively, is removed.
     */
    method DeleteComment(commentId: Id) returns (r: Result<(), ApiError>, ghost doomed: set<Id>)
      modifies this
      ensures users == old(users) && photos == old(photos) && allTags == old(allTags)
      ensures (forall c :: c in old(comments) ==> c.id != commentId) ==>
                r == Err(CommentNotFound) && comments == old(comments)
      ensures (exists c :: c in old(comments) && c.id == commentId) ==>
                r == Ok(()) && IsClosure(Links(old(comments)), commentId, doomed) &&
                comments == Survivors(old(comments), doomed)
    {
      var k := KeyIndex(comments, CommentKey, commentId);
      if k == -1 {
        assert forall c :: c in comments ==> c.id != commentId;
        return Err(CommentNotFound), {};
      }
      assert comments[k] in comments;
      var ids := CollectReplies(Links(comments), commentId);
      comments := Survivors(comments, ids);
      r, doomed := Ok(()), ids;
    }
  }
}
