/**
 * The SQL store of php/index.php. The tables become sequences of rows on a
 * `Database` object; each request handler becomes a method taking its already
 * decoded request fields (an absent or null field is `None`). `sendError` becomes
 * an `Err` result. A statement that throws inside a transaction is named by a
 * fault parameter; `rollBack` then restores the snapshot taken at `beginTransaction`.
 */
module PhpApi {
  import opened Common
  import opened Model
  import opened Sorting
  import opened ReplyClosure

  /** The HTTP errors the handlers send: 400, 404 and 500. */
  datatype HttpError = BadRequest | NotFound | ServerError {
    function Code(): int {
      match this
      case BadRequest => 400
      case NotFound => 404
      case ServerError => 500
    }
  }

  /** A row of `comments`; `created_at` as a timestamp. */
  datatype CommentRow = CommentRow(id: Id, photoId: Id, author: string, text: string, createdAt: int, parentId: Option<Id>)

  /** A row of `comment_reactions`. */
  datatype ReactionRow = ReactionRow(commentId: Id, emoji: Emoji, userId: UserId)

  /** A row of `photo_tags`. */
  datatype TagRow = TagRow(photoId: Id, tag: string)

  function WithReactions(row: CommentRow, rs: Reactions): Comment {
    Comment(row.id, row.photoId, row.author, row.text, row.createdAt, row.parentId, rs)
  }

  function Base(c: Comment): CommentRow {
    CommentRow(c.id, c.photoId, c.author, c.text, c.createdAt, c.parentId)
  }

  /** The selected columns of a result set with the reactions dropped. */
  function Bases(cs: seq<Comment>): (r: seq<CommentRow>)
    ensures |r| == |cs| && forall i :: 0 <= i < |cs| ==> r[i] == Base(cs[i])
  {
    seq(|cs|, i requires 0 <= i < |cs| => Base(cs[i]))
  }

  // ------------------------------------------------------- grouped reactions

  function RowsFor(rs: seq<ReactionRow>, commentId: Id): (r: seq<ReactionRow>)
    ensures forall x :: x in r <==> x in rs && x.commentId == commentId
  {
    FilterMembers(rs, (x: ReactionRow) => x.commentId == commentId);
    Filter(rs, (x: ReactionRow) => x.commentId == commentId)
  }

  function EmojiColumn(rows: seq<ReactionRow>): (r: seq<Emoji>)
    ensures |r| == |rows| && forall i :: 0 <= i < |rows| ==> r[i] == rows[i].emoji
  {
    seq(|rows|, i requires 0 <= i < |rows| => rows[i].emoji)
  }

  /** The `GROUP BY emoji` keys of one comment's reaction rows. */
  function EmojisFor(rs: seq<ReactionRow>, commentId: Id): (r: seq<Emoji>)
    ensures NoDup(r)
    ensures forall e :: e in r <==> exists u :: ReactionRow(commentId, e, u) in rs
  {
    var rows := RowsFor(rs, commentId);
    var col := EmojiColumn(rows);
    assert forall e :: e in col <==> exists u :: ReactionRow(commentId, e, u) in rs by {
      forall e ensures e in col <==> exists u :: ReactionRow(commentId, e, u) in rs {
        if e in col {
          var i :| 0 <= i < |col| && col[i] == e;
          assert rows[i] == ReactionRow(commentId, e, rows[i].userId);
        }
        if exists u :: ReactionRow(commentId, e, u) in rs {
          var u :| ReactionRow(commentId, e, u) in rs;
          var j :| 0 <= j < |rs| && rs[j] == ReactionRow(commentId, e, u);
          var i :| 0 <= i < |rows| && rows[i] == rs[j];
          assert col[i] == e;
        }
      }
    }
    Distinct(col)
  }

  /** The user ids of one (comment, emoji) group, in table order. */
  function UsersFor(rs: seq<ReactionRow>, commentId: Id, e: Emoji): (r: seq<UserId>)
    ensures forall u :: u in r <==> ReactionRow(commentId, e, u) in rs
  {
    var rows := Filter(rs, (x: ReactionRow) => x.commentId == commentId && x.emoji == e);
    FilterMembers(rs, (x: ReactionRow) => x.commentId == commentId && x.emoji == e);
    var col := seq(|rows|, i requires 0 <= i < |rows| => rows[i].userId);
    assert forall u :: u in col <==> ReactionRow(commentId, e, u) in rs by {
      forall u ensures u in col <==> ReactionRow(commentId, e, u) in rs {
        if u in col {
          var i :| 0 <= i < |col| && col[i] == u;
          assert rows[i] in rows;
          assert rows[i] == ReactionRow(commentId, e, u);
        }
        if ReactionRow(commentId, e, u) in rs {
          var j :| 0 <= j < |rs| && rs[j] == ReactionRow(commentId, e, u);
          var i :| 0 <= i < |rows| && rows[i] == rs[j];
          assert col[i] == u;
        }
      }
    }
    col
  }

  /** `SELECT emoji, GROUP_CONCAT(user_id) ... GROUP BY emoji` for one comment. */
  function Groups(rs: seq<ReactionRow>, commentId: Id): (gs: seq<(Emoji, string)>)
    ensures var es := EmojisFor(rs, commentId);
            |gs| == |es| && forall i :: 0 <= i < |gs| ==> gs[i] == (es[i], Join(UsersFor(rs, commentId, es[i]), ','))
  {
    var es := EmojisFor(rs, commentId);
    seq(|es|, i requires 0 <= i < |es| => (es[i], Join(UsersFor(rs, commentId, es[i]), ',')))
  }

  /** `$comment['reactions'][$emoji] = explode(',', $users)` for each group in turn. */
  function FromGroups(gs: seq<(Emoji, string)>): Reactions {
    if |gs| == 0 then map[]
    else FromGroups(gs[..|gs| - 1])[gs[|gs| - 1].0 := Split(gs[|gs| - 1].1, ',')]
  }

  /** The map has a key for each group and no other. */
  lemma {:induction false} FromGroupsKeys(gs: seq<(Emoji, string)>)
    ensures forall e :: e in FromGroups(gs) <==> exists i :: 0 <= i < |gs| && gs[i].0 == e
  {
    if |gs| > 0 {
      var n := |gs| - 1;
      FromGroupsKeys(gs[..n]);
      forall e ensures e in FromGroups(gs) <==> exists i :: 0 <= i < |gs| && gs[i].0 == e {
        if exists i :: 0 <= i < |gs| && gs[i].0 == e {
          var i :| 0 <= i < |gs| && gs[i].0 == e;
          if i < n {
            assert gs[..n][i] == gs[i];
          }
        }
        if e in FromGroups(gs[..n]) {
          var i :| 0 <= i < n && gs[..n][i].0 == e;
          assert gs[i] == gs[..n][i];
        }
      }
    }
  }

  /** A later group with the same emoji overwrites; the last one's users are kept. */
  lemma {:induction false} FromGroupsLast(gs: seq<(Emoji, string)>, i: nat)
    requires i < |gs| && forall j :: i < j < |gs| ==> gs[j].0 != gs[i].0
    ensures gs[i].0 in FromGroups(gs) && FromGroups(gs)[gs[i].0] == Split(gs[i].1, ',')
  {
    var n := |gs| - 1;
    if i < n {
      assert gs[..n][i] == gs[i];
      FromGroupsLast(gs[..n], i);
    }
  }

  /** The reactions map the getters attach to one comment. */
  function ReactionMapOf(rs: seq<ReactionRow>, commentId: Id): Reactions {
    FromGroups(Groups(rs, commentId))
  }

  /**
   * When no user id holds a comma, the attached map says exactly who reacted
   * with what: each emoji of the comment's rows maps to its users in table order.
   */
  lemma ReactionMapExact(rs: seq<ReactionRow>, commentId: Id)
    requires forall x :: x in rs ==> ',' !in x.userId
    ensures var m := ReactionMapOf(rs, commentId);
            (forall e :: e in m <==> exists u :: ReactionRow(commentId, e, u) in rs) &&
            (forall e :: e in m ==> m[e] == UsersFor(rs, commentId, e)) &&
            (forall e, u :: e in m && u in m[e] <==> ReactionRow(commentId, e, u) in rs)
  {
    ReactionMapKeys(rs, commentId);
    var m := ReactionMapOf(rs, commentId);
    forall e | e in m ensures m[e] == UsersFor(rs, commentId, e) {
      ReactionMapUsers(rs, commentId, e);
    }
  }

  lemma ReactionMapKeys(rs: seq<ReactionRow>, commentId: Id)
    ensures forall e :: e in ReactionMapOf(rs, commentId) <==> e in EmojisFor(rs, commentId)
  {
    var es := EmojisFor(rs, commentId);
    var gs := Groups(rs, commentId);
    FromGroupsKeys(gs);
    forall e | e in es ensures exists i :: 0 <= i < |gs| && gs[i].0 == e {
      var i :| 0 <= i < |es| && es[i] == e;
      assert gs[i].0 == e;
    }
  }

  lemma ReactionMapUsers(rs: seq<ReactionRow>, commentId: Id, e: Emoji)
    requires forall x :: x in rs ==> ',' !in x.userId
    requires e in EmojisFor(rs, commentId)
    ensures e in ReactionMapOf(rs, commentId) && ReactionMapOf(rs, commentId)[e] == UsersFor(rs, commentId, e)
  {
    var es := EmojisFor(rs, commentId);
    var gs := Groups(rs, commentId);
    var i :| 0 <= i < |es| && es[i] == e;
    assert gs[i].0 == e;
    FromGroupsLast(gs, i);
    var us := UsersFor(rs, commentId, e);
    var u :| ReactionRow(commentId, e, u) in rs;
    assert u in us;
    forall k | 0 <= k < |us| ensures ',' !in us[k] {
      assert ReactionRow(commentId, e, us[k]) in rs;
    }
    SplitJoin(us, ',');
  }

  /** A comment without reaction rows gets an empty map (`[]` in the JSON). */
  lemma ReactionMapEmpty(rs: seq<ReactionRow>, commentId: Id)
    requires forall x :: x in rs ==> x.commentId != commentId
    ensures ReactionMapOf(rs, commentId) == map[]
  {
    ReactionMapKeys(rs, commentId);
    assert ReactionMapOf(rs, commentId).Keys == {};
  }

  /** Every comment of `out` carries the map of its reaction rows. */
  ghost predicate CarriesReactions(out: seq<Comment>, rs: seq<ReactionRow>) {
    forall i :: 0 <= i < |out| ==> out[i].reactions == ReactionMapOf(rs, out[i].id)
  }

  /** The inner `foreach ($reactions as $reaction)` loop for one comment, over its grouped rows. */
  method ReactionsOf(rs: seq<ReactionRow>, commentId: Id) returns (m: Reactions)
    ensures m == ReactionMapOf(rs, commentId)
  {
    m := ExplodeGroups(Groups(rs, commentId));
  }

  /** Each `(emoji, users)` group in turn, exploded into the map. */
  method ExplodeGroups(gs: seq<(Emoji, string)>) returns (m: Reactions)
    ensures m == FromGroups(gs)
  {
    m := map[];
    var k := 0;
    while k < |gs|
      invariant 0 <= k <= |gs|
      invariant m == FromGroups(gs[..k])
    {
      assert gs[..k + 1][..k] == gs[..k];
      m := m[gs[k].0 := Split(gs[k].1, ',')];
      k := k + 1;
    }
    assert gs[..|gs|] == gs;
  }

  /** `foreach ($comments as &$comment)`: each selected row gets its reactions map. */
  method AttachReactions(rows: seq<CommentRow>, rs: seq<ReactionRow>) returns (out: seq<Comment>)
    ensures Bases(out) == rows
    ensures CarriesReactions(out, rs)
  {
    out := [];
    var i := 0;
    while i < |rows|
      invariant 0 <= i <= |rows|
      invariant |out| == i && forall j :: 0 <= j < i ==> out[j] == WithReactions(rows[j], ReactionMapOf(rs, rows[j].id))
    {
      var m := ReactionsOf(rs, rows[i].id);
      out := out + [WithReactions(rows[i], m)];
      i := i + 1;
    }
  }

  // ---------------------------------------------------------------- orderings

  /** `ORDER BY created_at DESC`. */
  const NewestRowFirst: (CommentRow, CommentRow) -> bool := (a: CommentRow, b: CommentRow) => a.createdAt >= b.createdAt

  /** `ORDER BY created_at`. */
  const OldestRowFirst: (CommentRow, CommentRow) -> bool := (a: CommentRow, b: CommentRow) => a.createdAt <= b.createdAt

  lemma RowOrdersTotal()
    ensures TotalPreorder(NewestRowFirst) && TotalPreorder(OldestRowFirst)
  {
  }

  /** PHP's `!$photoId` for a query-string value: absent, the empty string and "0" are falsy. */
  predicate Falsy(s: Option<string>) {
    s.None? || s.value == "" || s.value == "0"
  }

  /** `min($_GET['limit'] ?? 5, 20)`. */
  function EffectiveLimit(limit: Option<int>): (l: int)
    ensures l <= 20
    ensures limit.None? ==> l == 5
    ensures limit.Some? ==> l == Min(limit.value, 20)
  {
    Min(limit.GetOr(5), 20)
  }

  // ------------------------------------------------------------------ toggle

  /** The toggle on `comment_reactions`: every matching row is deleted, or one is inserted. */
  function ToggleRow(rs: seq<ReactionRow>, t: ReactionRow): (r: seq<ReactionRow>)
    ensures t in r <==> t !in rs
    ensures forall x :: x != t ==> multiset(r)[x] == multiset(rs)[x]
  {
    if t in rs then
      var r := Filter(rs, (x: ReactionRow) => x != t);
      FilterMembers(rs, (x: ReactionRow) => x != t);
      assert forall x :: multiset(r)[x] == if x != t then multiset(rs)[x] else 0 by {
        forall x ensures multiset(r)[x] == if x != t then multiset(rs)[x] else 0 {
          FilterCount(rs, (x: ReactionRow) => x != t, x);
        }
      }
      r
    else rs + [t]
  }

  /**
   * Two identical toggles give the table back: exactly when the row was absent,
   * and as a multiset of rows when it was there once (the key allows no more).
   */
  lemma ToggleRowTwice(rs: seq<ReactionRow>, t: ReactionRow)
    ensures t !in rs ==> ToggleRow(ToggleRow(rs, t), t) == rs
    ensures multiset(rs)[t] <= 1 ==> multiset(ToggleRow(ToggleRow(rs, t), t)) == multiset(rs)
  {
    if t !in rs {
      FilterConcat(rs, [t], (x: ReactionRow) => x != t);
      FilterAll(rs, (x: ReactionRow) => x != t);
    }
    var twice := ToggleRow(ToggleRow(rs, t), t);
    if multiset(rs)[t] <= 1 {
      assert multiset(twice)[t] == multiset(rs)[t] by {
        if t in rs {
          assert t in twice;
          assert multiset(twice)[t] == 1 by {
            assert twice == ToggleRow(rs, t) + [t];
          }
        }
      }
    }
  }

  // -------------------------------------------------------------- delete BFS

  function LinkOfRow(c: CommentRow): Link { Link(c.id, c.parentId) }

  function RowLinks(cs: seq<CommentRow>): (ls: seq<Link>)
    ensures |ls| == |cs| && forall i :: 0 <= i < |cs| ==> ls[i] == LinkOfRow(cs[i])
  {
    seq(|cs|, i requires 0 <= i < |cs| => LinkOfRow(cs[i]))
  }

  /**
   * The inner `foreach ($children as $childId)` loop of `deleteComment`: each
   * child id not yet in the list is appended to it and to the queue, in
   * order. `added` lists those ids.
   */
  method VisitChildIds(children: seq<Link>, ids: seq<Id>, queue: seq<Id>)
    returns (ids': seq<Id>, queue': seq<Id>, ghost added: seq<Id>)
    ensures ids' == ids + added && queue' == queue + added
    ensures NoDup(ids) ==> NoDup(ids')
    ensures forall x :: x in added ==> x !in Members(ids) && exists l :: l in children && l.id == x
    ensures forall l :: l in children ==> l.id in Members(ids) + Members(added)
  {
    ids', queue', added := ids, queue, [];
    var k := 0;
    while k < |children|
      invariant 0 <= k <= |children|
      invariant ids' == ids + added && queue' == queue + added
      invariant NoDup(ids) ==> NoDup(ids')
      invariant forall x :: x in added ==> x !in ids && exists j :: 0 <= j < k && children[j].id == x
      invariant forall j :: 0 <= j < k ==> children[j].id in ids'
    {
      var childId := children[k].id;
      if childId !in ids' {
        ids' := ids' + [childId];
        queue' := queue' + [childId];
        added := added + [childId];
      }
      k := k + 1;
    }
    forall x | x in added ensures exists l :: l in children && l.id == x {
      var j :| 0 <= j < |children| && children[j].id == x;
      assert children[j] in children;
    }
    forall l | l in children ensures l.id in Members(ids) + Members(added) {
      var j :| 0 <= j < |children| && children[j] == l;
    }
  }

  /**
   * The `while (!empty($queue))` loop of `deleteComment`: `$idsToDelete` is a
   * list, and `in_array` keeps each id in it (and in the queue) once.
   */
  method CollectIdList(ls: seq<Link>, root: Id) returns (ids: seq<Id>)
    ensures |ids| >= 1 && ids[0] == root && NoDup(ids)
    ensures IsClosure(ls, root, Members(ids))
  {
    ids := [root];
    var queue := [root];
    SearchStart(ls, root);
    while |queue| > 0
      invariant |ids| >= 1 && ids[0] == root && NoDup(ids)
      invariant Searching(ls, root, Members(ids), queue)
      decreases (Ids(ls) + {root}) - Members(ids), |queue|
    {
      var current := queue[0];
      var children := RepliesTo(ls, current);
      ghost var before, whole := ids, queue;
      ghost var added;
      ids, queue, added := VisitChildIds(children, ids, queue[1..]);
      MembersConcat(before, added);
      SearchStep(ls, root, Members(before), whole, children, added);
    }
    SearchDone(ls, root, Members(ids));
  }

  // ------------------------------------------------------------ integrity

  /** Every reaction row names a stored comment (what a foreign key would demand). */
  ghost predicate ReactionsReferenceComments(cs: seq<CommentRow>, rs: seq<ReactionRow>) {
    forall x :: x in rs ==> exists c :: c in cs && c.id == x.commentId
  }

  /** Every reply names a stored parent. */
  ghost predicate ParentsPresent(cs: seq<CommentRow>) {
    forall c :: c in cs && c.parentId.Some? ==> exists p :: p in cs && p.id == c.parentId.value
  }

  function CommentsOutside(cs: seq<CommentRow>, doomed: set<Id>): (r: seq<CommentRow>)
    ensures forall c :: c in r <==> c in cs && c.id !in doomed
  {
    FilterMembers(cs, (c: CommentRow) => c.id !in doomed);
    Filter(cs, (c: CommentRow) => c.id !in doomed)
  }

  function ReactionsOutside(rs: seq<ReactionRow>, doomed: set<Id>): (r: seq<ReactionRow>)
    ensures forall x :: x in r <==> x in rs && x.commentId !in doomed
  {
    FilterMembers(rs, (x: ReactionRow) => x.commentId !in doomed);
    Filter(rs, (x: ReactionRow) => x.commentId !in doomed)
  }

  /**
   * Deleting the reactions of a closed set of comments first, then the comments,
   * keeps both integrity rules at each statement boundary.
   */
  lemma CascadeKeepsIntegrity(cs: seq<CommentRow>, rs: seq<ReactionRow>, root: Id, doomed: set<Id>)
    requires IsClosure(RowLinks(cs), root, doomed)
    requires ReactionsReferenceComments(cs, rs) && ParentsPresent(cs)
    ensures ReactionsReferenceComments(cs, ReactionsOutside(rs, doomed))
    ensures ReactionsReferenceComments(CommentsOutside(cs, doomed), ReactionsOutside(rs, doomed))
    ensures ParentsPresent(CommentsOutside(cs, doomed))
  {
    var cs' := CommentsOutside(cs, doomed);
    forall x | x in ReactionsOutside(rs, doomed) ensures exists c :: c in cs' && c.id == x.commentId {
      var c :| c in cs && c.id == x.commentId;
      assert c in cs';
    }
    forall c | c in cs' && c.parentId.Some? ensures exists p :: p in cs' && p.id == c.parentId.value {
      var i :| 0 <= i < |cs| && cs[i] == c;
      assert RowLinks(cs)[i] in RowLinks(cs);
      var p :| p in cs && p.id == c.parentId.value;
      assert p in cs';
    }
  }

  /** The other order would break the reaction rule in between whenever a doomed comment has a reaction. */
  lemma CommentsFirstBreaksIntegrity(cs: seq<CommentRow>, rs: seq<ReactionRow>, doomed: set<Id>, x: ReactionRow)
    requires x in rs && x.commentId in doomed
    ensures !ReactionsReferenceComments(CommentsOutside(cs, doomed), rs)
  {
  }

  /**
   * An id that no comment has and no comment replies to is its own closure, and
   * deleting it removes no comment, and no reaction while reactions name stored comments.
   */
  lemma DeleteUnknownId(cs: seq<CommentRow>, rs: seq<ReactionRow>, root: Id)
    requires forall c :: c in cs ==> c.id != root && c.parentId != Some(root)
    ensures IsClosure(RowLinks(cs), root, {root})
    ensures CommentsOutside(cs, {root}) == cs
    ensures ReactionsReferenceComments(cs, rs) ==> ReactionsOutside(rs, {root}) == rs
  {
    UnrepliedRowClosure(cs, root);
    KeepAllComments(cs, {root});
    if ReactionsReferenceComments(cs, rs) {
      forall x | x in rs ensures x.commentId !in {root} {
        var c :| c in cs && c.id == x.commentId;
      }
      KeepAllReactions(rs, {root});
    }
  }

  lemma UnrepliedRowClosure(cs: seq<CommentRow>, root: Id)
    requires forall c :: c in cs ==> c.parentId != Some(root)
    ensures IsClosure(RowLinks(cs), root, {root})
  {
    var ls := RowLinks(cs);
    forall l | l in ls ensures l.parentId != Some(root) {
      var i :| 0 <= i < |cs| && ls[i] == l;
      assert cs[i] in cs;
    }
    ClosureOfUnreplied(ls, root);
  }

  lemma KeepAllComments(cs: seq<CommentRow>, doomed: set<Id>)
    requires forall c :: c in cs ==> c.id !in doomed
    ensures CommentsOutside(cs, doomed) == cs
  {
    FilterAll(cs, (c: CommentRow) => c.id !in doomed);
  }

  lemma KeepAllReactions(rs: seq<ReactionRow>, doomed: set<Id>)
    requires forall x :: x in rs ==> x.commentId !in doomed
    ensures ReactionsOutside(rs, doomed) == rs
  {
    FilterAll(rs, (x: ReactionRow) => x.commentId !in doomed);
  }

  // --------------------------------------------------------------- tag rows

  function TagRowsFor(photoId: Id, tags: seq<string>): (r: seq<TagRow>)
    ensures |r| == |tags| && forall i :: 0 <= i < |tags| ==> r[i] == TagRow(photoId, tags[i])
  {
    seq(|tags|, i requires 0 <= i < |tags| => TagRow(photoId, tags[i]))
  }

  /** `SELECT tag FROM photo_tags WHERE photo_id = ?`, in table order. */
  function TagsOf(ts: seq<TagRow>, photoId: Id): seq<string> {
    var rows := Filter(ts, (t: TagRow) => t.photoId == photoId);
    seq(|rows|, i requires 0 <= i < |rows| => rows[i].tag)
  }

  lemma {:induction false} TagsOfConcat(a: seq<TagRow>, b: seq<TagRow>, photoId: Id)
    ensures TagsOf(a + b, photoId) == TagsOf(a, photoId) + TagsOf(b, photoId)
  {
    FilterConcat(a, b, (t: TagRow) => t.photoId == photoId);
  }

  /**
   * After the replace, the photo's tags are the new list in order and every
   * other photo keeps its tags.
   */
  lemma TagReplaceEffect(ts: seq<TagRow>, photoId: Id, tags: seq<string>, other: Id)
    requires other != photoId
    ensures TagsOf(Filter(ts, (t: TagRow) => t.photoId != photoId) + TagRowsFor(photoId, tags), photoId) == tags
    ensures TagsOf(Filter(ts, (t: TagRow) => t.photoId != photoId) + TagRowsFor(photoId, tags), other) == TagsOf(ts, other)
  {
    var kept := Filter(ts, (t: TagRow) => t.photoId != photoId);
    var added := TagRowsFor(photoId, tags);
    TagsOfConcat(kept, added, photoId);
    TagsOfConcat(kept, added, other);
    FilterMembers(ts, (t: TagRow) => t.photoId != photoId);
    FilterNone(kept, (t: TagRow) => t.photoId == photoId);
    FilterAll(added, (t: TagRow) => t.photoId == photoId);
    FilterNone(added, (t: TagRow) => t.photoId == other);
    FilterOfFilter(ts, photoId, other);
  }

  lemma {:induction false} FilterOfFilter(ts: seq<TagRow>, photoId: Id, other: Id)
    requires other != photoId
    ensures Filter(Filter(ts, (t: TagRow) => t.photoId != photoId), (t: TagRow) => t.photoId == other) ==
            Filter(ts, (t: TagRow) => t.photoId == other)
  {
    if |ts| > 0 {
      FilterOfFilter(ts[1..], photoId, other);
    }
  }

  // ------------------------------------------------------------------ faults

  /** Which statement of the delete transaction throws, if any. */
  datatype DeleteFault = NoDeleteFault | SearchFails | ReactionDeleteFails | CommentDeleteFails

  // ---------------------------------------------------------------- database

  /** The tables the comment handlers touch. */
  class Database {
    var photos: seq<Id>
    var photoTags: seq<TagRow>
    var comments: seq<CommentRow>
    var reactions: seq<ReactionRow>

    constructor (photos0: seq<Id>, photoTags0: seq<TagRow>, comments0: seq<CommentRow>, reactions0: seq<ReactionRow>)
      ensures photos == photos0 && photoTags == photoTags0 && comments == comments0 && reactions == reactions0
    {
      photos, photoTags, comments, reactions := photos0, photoTags0, comments0, reactions0;
    }

    /**
     * `getLatestComments`: at most 20, 5 when no limit is given; a negative
     * limit is an SQL error. Ties in `created_at` come in no promised order.
     */
    method GetLatestComments(limit: Option<int>) returns (r: Result<seq<Comment>, HttpError>)
      ensures EffectiveLimit(limit) < 0 ==> r == Err(ServerError)
      ensures EffectiveLimit(limit) >= 0 ==>
                r.Ok? && IsTopN(comments, Bases(r.value), EffectiveLimit(limit), NewestRowFirst) &&
                CarriesReactions(r.value, reactions)
    {
      var l := EffectiveLimit(limit);
      if l < 0 {
        return Err(ServerError);
      }
      RowOrdersTotal();
      TopNOfSorted(comments, l, NewestRowFirst);
      var rows := Sort(comments, NewestRowFirst)[..Min(l, |comments|)];
      var out := AttachReactions(rows, reactions);
      r := Ok(out);
    }

    /**
     * `getCommentsForPhoto`: a falsy photo id is rejected; otherwise exactly that
     * photo's comments, oldest first, each with its reactions.
     */
    method GetCommentsForPhoto(photoId: Option<string>) returns (r: Result<seq<Comment>, HttpError>)
      ensures Falsy(photoId) ==> r == Err(BadRequest)
      ensures !Falsy(photoId) ==>
                r.Ok? && SortedBy(Bases(r.value), OldestRowFirst) &&
                multiset(Bases(r.value)) == multiset(Filter(comments, (c: CommentRow) => c.photoId == photoId.value)) &&
                CarriesReactions(r.value, reactions)
    {
      if Falsy(photoId) {
        return Err(BadRequest);
      }
      var pid := photoId.value;
      var selected := Filter(comments, (c: CommentRow) => c.photoId == pid);
      RowOrdersTotal();
      SortCorrect(selected, OldestRowFirst);
      var out := AttachReactions(Sort(selected, OldestRowFirst), reactions);
      r := Ok(out);
    }

    /**
     * `postComment`: 400 when a required field is missing, 404 for an unknown
     * photo, both before any insert; otherwise one row is inserted and the
     * comment comes back with no reactions. The parent is not checked.
     */
    method PostComment(photoId: Option<Id>, author: Option<string>, text: Option<string>, parentId: Option<Id>,
                       freshId: Id, now: int) returns (r: Result<Comment, HttpError>)
      modifies this
      ensures photos == old(photos) && photoTags == old(photoTags) && reactions == old(reactions)
      ensures photoId.None? || author.None? || text.None? ==> r == Err(BadRequest) && comments == old(comments)
      ensures photoId.Some? && author.Some? && text.Some? && photoId.value !in photos ==>
                r == Err(NotFound) && comments == old(comments)
      ensures photoId.Some? && author.Some? && text.Some? && photoId.value in photos ==>
                var row := CommentRow(freshId, photoId.value, author.value, text.value, now, parentId);
                r == Ok(WithReactions(row, map[])) && comments == old(comments) + [row]
    {
      if photoId.None? || author.None? || text.None? {
        return Err(BadRequest);
      }
      if photoId.value !in photos {
        return Err(NotFound);
      }
      var row := CommentRow(freshId, photoId.value, author.value, text.value, now, parentId);
      comments := comments + [row];
      r := Ok(WithReactions(row, map[]));
    }

    /** `toggleCommentReaction`: 400 when a field is missing; the comment is not looked up. */
    method ToggleCommentReaction(commentId: Option<Id>, emoji: Option<Emoji>, userId: Option<UserId>)
      returns (r: Result<(), HttpError>)
      modifies this
      ensures photos == old(photos) && photoTags == old(photoTags) && comments == old(comments)
      ensures commentId.None? || emoji.None? || userId.None? ==> r == Err(BadRequest) && reactions == old(reactions)
      ensures commentId.Some? && emoji.Some? && userId.Some? ==>
                r == Ok(()) && reactions == ToggleRow(old(reactions), ReactionRow(commentId.value, emoji.value, userId.value))
    {
      if commentId.None? || emoji.None? || userId.None? {
        return Err(BadRequest);
      }
      var t := ReactionRow(commentId.value, emoji.value, userId.value);
      if t in reactions {
        reactions := Filter(reactions, (x: ReactionRow) => x != t);
      } else {
        reactions := reactions + [t];
      }
      r := Ok(());
    }

    /**
     * `deleteComment`: 400 without an id; then, in one transaction, the reactions
     * of the whole reply closure and then its comments are deleted. The id itself
     * need not exist. A failing statement rolls everything back and gives 500.
     */
    method DeleteComment(commentId: Option<Id>, fault: DeleteFault)
      returns (r: Result<(), HttpError>, ghost doomed: set<Id>, ghost midReactions: seq<ReactionRow>)
      modifies this
      ensures photos == old(photos) && photoTags == old(photoTags)
      ensures commentId.None? ==> r == Err(BadRequest) && comments == old(comments) && reactions == old(reactions)
      ensures commentId.Some? && fault != NoDeleteFault ==>
                r == Err(ServerError) && comments == old(comments) && reactions == old(reactions)
      ensures commentId.Some? && fault == NoDeleteFault ==>
                && r == Ok(())
                && IsClosure(RowLinks(old(comments)), commentId.value, doomed)
                && midReactions == ReactionsOutside(old(reactions), doomed)
                && reactions == midReactions
                && comments == CommentsOutside(old(comments), doomed)
    {
      if commentId.None? {
        return Err(BadRequest), {}, reactions;
      }
      var snapComments, snapReactions := comments, reactions;
      var ids := CollectIdList(RowLinks(comments), commentId.value);
      var idSet := set x | x in ids;
      if fault == SearchFails {
        comments, reactions := snapComments, snapReactions;
        return Err(ServerError), idSet, reactions;
      }
      if fault == ReactionDeleteFails {
        comments, reactions := snapComments, snapReactions;
        return Err(ServerError), idSet, reactions;
      }
      reactions := ReactionsOutside(reactions, idSet);
      midReactions := reactions;
      if fault == CommentDeleteFails {
        comments, reactions := snapComments, snapReactions;
        return Err(ServerError), idSet, midReactions;
      }
      comments := CommentsOutside(comments, idSet);
      r, doomed := Ok(()), idSet;
    }

    /**
     * `updatePhotoTags`: 400 when a field is missing, 404 for an unknown photo,
     * both before the transaction. Then the photo's rows are deleted and one row
     * per tag inserted; `fault == Some(k)` makes statement k throw (0 is the
     * delete, k > 0 the insert of `tags[k - 1]`), which rolls back and gives 500.
     */
    method UpdatePhotoTags(photoId: Option<Id>, tags: Option<seq<string>>, fault: Option<nat>)
      returns (r: Result<(), HttpError>)
      modifies this
      ensures photos == old(photos) && comments == old(comments) && reactions == old(reactions)
      ensures photoId.None? || tags.None? ==> r == Err(BadRequest) && photoTags == old(photoTags)
      ensures photoId.Some? && tags.Some? && photoId.value !in photos ==> r == Err(NotFound) && photoTags == old(photoTags)
      ensures photoId.Some? && tags.Some? && photoId.value in photos && fault.Some? && fault.value <= |tags.value| ==>
                r == Err(ServerError) && photoTags == old(photoTags)
      ensures photoId.Some? && tags.Some? && photoId.value in photos && (fault.None? || fault.value > |tags.value|) ==>
                r == Ok(()) &&
                photoTags == Filter(old(photoTags), (t: TagRow) => t.photoId != photoId.value) + TagRowsFor(photoId.value, tags.value)
    {
      if photoId.None? || tags.None? {
        return Err(BadRequest);
      }
      var pid, ts := photoId.value, tags.value;
      if pid !in photos {
        return Err(NotFound);
      }
      var snapshot := photoTags;
      if fault == Some(0) {
        return Err(ServerError);
      }
      photoTags := Filter(photoTags, (t: TagRow) => t.photoId != pid);
      var i := 0;
      while i < |ts|
        invariant 0 <= i <= |ts|
        invariant photos == old(photos) && comments == old(comments) && reactions == old(reactions)
        invariant forall j :: 0 <= j <= i ==> fault != Some(j)
        invariant photoTags == Filter(snapshot, (t: TagRow) => t.photoId != pid) + TagRowsFor(pid, ts[..i])
      {
        if fault == Some(i + 1) {
          photoTags := snapshot;
          return Err(ServerError);
        }
        photoTags := photoTags + [TagRow(pid, ts[i])];
        i := i + 1;
      }
      assert ts[..i] == ts;
      r := Ok(());
    }
  }

  // ----------------------------------------------------------------- routing

  /** The handlers `handleRequest` can dispatch to. */
  datatype Handler =
    | LoginHandler | GetUsers | GetAlbums | GetAlbum | GetPhotosForAlbum | GetPhotoDetails
    | GetAllTags | UpdatePhotoTagsHandler | GetCommentsForPhotoHandler | GetLatestCommentsHandler
    | PostCommentHandler | ToggleReactionHandler | DeleteCommentHandler | IndexPhotos

  /** A dispatch, the 404 of the `default` case, or the empty reply of a `break` on the wrong method. */
  datatype Routed = Dispatch(handler: Handler) | EndpointNotFound | EmptyReply

  function EndpointName(h: Handler): string {
    match h
    case LoginHandler => "login"
    case GetUsers => "users"
    case GetAlbums => "albums"
    case GetAlbum => "album"
    case GetPhotosForAlbum => "photos"
    case GetPhotoDetails => "photo"
    case GetAllTags => "tags"
    case UpdatePhotoTagsHandler => "update-tags"
    case GetCommentsForPhotoHandler => "comments"
    case GetLatestCommentsHandler => "latest-comments"
    case PostCommentHandler => "post-comment"
    case ToggleReactionHandler => "toggle-reaction"
    case DeleteCommentHandler => "delete-comment"
    case IndexPhotos => "index"
  }

  function MethodOf(h: Handler): string {
    match h
    case LoginHandler | UpdatePhotoTagsHandler | PostCommentHandler | ToggleReactionHandler
       | DeleteCommentHandler | IndexPhotos => "POST"
    case _ => "GET"
  }

  /** `str_replace('/api/', '', $path)`. */
  function EndpointOf(path: string): string {
    ReplaceAll(path, "/api/", "")
  }

  /** The `case` labels of the `switch ($endpoint)` in `handleRequest`. */
  function HandlerNamed(e: string): (r: Option<Handler>)
    ensures r.Some? ==> EndpointName(r.value) == e
  {
    if e == "login" then Some(LoginHandler)
    else if e == "users" then Some(GetUsers)
    else if e == "albums" then Some(GetAlbums)
    else if e == "album" then Some(GetAlbum)
    else if e == "photos" then Some(GetPhotosForAlbum)
    else if e == "photo" then Some(GetPhotoDetails)
    else if e == "tags" then Some(GetAllTags)
    else if e == "update-tags" then Some(UpdatePhotoTagsHandler)
    else if e == "comments" then Some(GetCommentsForPhotoHandler)
    else if e == "latest-comments" then Some(GetLatestCommentsHandler)
    else if e == "post-comment" then Some(PostCommentHandler)
    else if e == "toggle-reaction" then Some(ToggleReactionHandler)
    else if e == "delete-comment" then Some(DeleteCommentHandler)
    else if e == "index" then Some(IndexPhotos)
    else None
  }

  /** Every handler's name selects that handler. */
  lemma HandlerNamedInverse(h: Handler)
    ensures HandlerNamed(EndpointName(h)) == Some(h)
  {
    match h
    case LoginHandler =>
    case GetUsers =>
    case GetAlbums =>
    case GetAlbum =>
    case GetPhotosForAlbum =>
    case GetPhotoDetails =>
    case GetAllTags =>
    case UpdatePhotoTagsHandler =>
    case GetCommentsForPhotoHandler =>
    case GetLatestCommentsHandler =>
    case PostCommentHandler =>
    case ToggleReactionHandler =>
    case DeleteCommentHandler =>
    case IndexPhotos =>
  }

  lemma NameWithoutSlash(h: Handler)
    ensures '/' !in EndpointName(h)
  {
    match h
    case LoginHandler =>
    case GetUsers =>
    case GetAlbums =>
    case GetAlbum =>
    case GetPhotosForAlbum =>
    case GetPhotoDetails =>
    case GetAllTags =>
    case UpdatePhotoTagsHandler =>
    case GetCommentsForPhotoHandler =>
    case GetLatestCommentsHandler =>
    case PostCommentHandler =>
    case ToggleReactionHandler =>
    case DeleteCommentHandler =>
    case IndexPhotos =>
  }

  /** `handleRequest`: dispatch on the endpoint, then on the HTTP method. */
  function Route(verb: string, path: string): Routed {
    var h := HandlerNamed(EndpointOf(path));
    if h.None? then EndpointNotFound
    else if verb == MethodOf(h.value) then Dispatch(h.value)
    else EmptyReply
  }

  /**
   * The route is fixed by the endpoint's handler table: 404 exactly when no
   * handler has the endpoint's name, else that handler on its own method and an
   * empty reply on any other.
   */
  lemma RouteSpec(verb: string, path: string)
    ensures Route(verb, path) == EndpointNotFound <==> forall h :: EndpointName(h) != EndpointOf(path)
    ensures forall h :: EndpointName(h) == EndpointOf(path) ==>
              Route(verb, path) == if verb == MethodOf(h) then Dispatch(h) else EmptyReply
  {
    forall h | EndpointName(h) == EndpointOf(path) ensures HandlerNamed(EndpointOf(path)) == Some(h) {
      HandlerNamedInverse(h);
    }
  }

  /** A name without '/' is its own endpoint, with or without the `/api/` prefix. */
  lemma EndpointOfApiPath(name: string)
    requires '/' !in name
    ensures EndpointOf("/api/" + name) == name
    ensures EndpointOf(name) == name
  {
    var s := "/api/" + name;
    assert s[..5] == "/api/";
    assert s[5..] == name;
    ReplaceAllNone(name, "/api/", "");
  }

  /** Every handler is reached by its own method on `/api/<name>`, and by no other method. */
  lemma RouteTable(h: Handler, verb: string)
    ensures Route(MethodOf(h), "/api/" + EndpointName(h)) == Dispatch(h)
    ensures verb != MethodOf(h) ==> Route(verb, "/api/" + EndpointName(h)) == EmptyReply
  {
    NameWithoutSlash(h);
    EndpointOfApiPath(EndpointName(h));
    HandlerNamedInverse(h);
  }
}
