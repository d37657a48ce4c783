/**
 * The comment and tag logic of src/Lightbox.tsx that is not tree building
 * (that is CommentTree): the optimistic reaction toggle and its rollback, the
 * optimistic tag update and its rollback, the TagsManager input rules,
 * `changePhoto` and `canDelete`.
 *
 * The reaction rollback depends on object identity. `[...comments]` copies
 * the array but not the comments, and the optimistic update copies each
 * matching comment's `reactions` object but splices or pushes the existing
 * reactor array itself. So the state is kept as cells that name their arrays:
 * a cell has a `home` (the identity of the comment object its arrays were
 * created for) and the set of emoji keys its `reactions` object has; the
 * array for emoji `e` of a cell is `store[home][e]`. A copied comment keeps
 * its home, so writes through the copy show through the original.
 */
module Lightbox {
  import opened Common
  import opened Model
  import opened Reactions
  import opened ReplyClosure
  import opened TagInput
  import MockApi

  // ------------------------------------------------------- reaction state

  datatype CommentCell = CommentCell(
    id: Id,
    photoId: Id,
    author: string,
    text: string,
    createdAt: int,
    parentId: Option<Id>,
    home: nat,
    keys: set<Emoji>)

  /** home -> emoji -> the contents of that reactor array. */
  type ArrayStore = map<nat, map<Emoji, seq<UserId>>>

  predicate Backed(c: CommentCell, store: ArrayStore) {
    c.home in store && c.keys <= store[c.home].Keys
  }

  predicate AllBacked(cells: seq<CommentCell>, store: ArrayStore) {
    forall i :: 0 <= i < |cells| ==> Backed(cells[i], store)
  }

  /** No two comments in the list are the same object, so none share an array. */
  predicate DistinctHomes(cells: seq<CommentCell>) {
    forall i, j :: 0 <= i < j < |cells| ==> cells[i].home != cells[j].home
  }

  /** The comment a cell shows: its `reactions` read through the arrays it names. */
  function CellView(c: CommentCell, store: ArrayStore): (r: Comment)
    requires Backed(c, store)
    ensures r.id == c.id && r.reactions.Keys == c.keys
  {
    Comment(c.id, c.photoId, c.author, c.text, c.createdAt, c.parentId,
            map e | e in c.keys :: store[c.home][e])
  }

  function View(cells: seq<CommentCell>, store: ArrayStore): (r: seq<Comment>)
    requires AllBacked(cells, store)
    ensures |r| == |cells| && forall i :: 0 <= i < |cells| ==> r[i] == CellView(cells[i], store)
  {
    seq(|cells|, i requires 0 <= i < |cells| => CellView(cells[i], store))
  }

  // ------------------------------------------- what the handler should mean

  /** The update function given to `setComments`, on values: each comment with the id has the user toggled. */
  function OptComment(c: Comment, commentId: Id, emoji: Emoji, u: UserId): Comment {
    if c.id == commentId then c.(reactions := ToggleReaction(c.reactions, emoji, u)) else c
  }

  function Optimistic(cs: seq<Comment>, commentId: Id, emoji: Emoji, u: UserId): seq<Comment> {
    seq(|cs|, i requires 0 <= i < |cs| => OptComment(cs[i], commentId, emoji, u))
  }

  /**
   * What `setComments(originalComments)` shows after the optimistic write: the
   * array of an emoji the comment already had was changed in place, so that
   * change stays; a newly created array went only into the copy and is gone.
   */
  function RevComment(c: Comment, commentId: Id, emoji: Emoji, u: UserId): Comment {
    if c.id == commentId && emoji in c.reactions
    then c.(reactions := c.reactions[emoji := ToggleUser(c.reactions[emoji], u)])
    else c
  }

  function AliasedRevert(cs: seq<Comment>, commentId: Id, emoji: Emoji, u: UserId): seq<Comment> {
    seq(|cs|, i requires 0 <= i < |cs| => RevComment(cs[i], commentId, emoji, u))
  }

  /**
   * The optimistic update touches only comments with the id, and in them only
   * `reactions`; there it flips whether the user reacted with the emoji and
   * keeps every other (emoji, user) pair.
   */
  lemma OptimisticFlips(cs: seq<Comment>, commentId: Id, emoji: Emoji, u: UserId)
    ensures var r := Optimistic(cs, commentId, emoji, u);
            |r| == |cs| &&
            (forall j :: 0 <= j < |cs| ==> r[j] == cs[j].(reactions := r[j].reactions)) &&
            (forall j :: 0 <= j < |cs| && cs[j].id != commentId ==> r[j] == cs[j]) &&
            (forall j :: 0 <= j < |cs| && cs[j].id == commentId && multiset(ReactorsOf(cs[j].reactions, emoji))[u] <= 1 ==>
               (HasReacted(r[j].reactions, emoji, u) <==> !HasReacted(cs[j].reactions, emoji, u)) &&
               forall e, v :: (e != emoji || v != u) ==> (HasReacted(r[j].reactions, e, v) <==> HasReacted(cs[j].reactions, e, v)))
  {
    forall j | 0 <= j < |cs| && cs[j].id == commentId && multiset(ReactorsOf(cs[j].reactions, emoji))[u] <= 1 {
      ToggleReactionFlips(cs[j].reactions, emoji, u);
    }
  }

  /** With unique ids the optimistic state is exactly what the in-memory store computes. */
  lemma OptimisticMatchesStore(cs: seq<Comment>, commentId: Id, emoji: Emoji, u: UserId)
    requires forall i, j :: 0 <= i < j < |cs| ==> cs[i].id != cs[j].id
    ensures Optimistic(cs, commentId, emoji, u) == MockApi.ToggleInStore(cs, commentId, emoji, u)
  {
    var k := KeyIndex(cs, MockApi.CommentKey, commentId);
    var r := MockApi.ToggleInStore(cs, commentId, emoji, u);
    forall j | 0 <= j < |cs| ensures Optimistic(cs, commentId, emoji, u)[j] == r[j] {
      if cs[j].id == commentId {
        assert k == j;
      }
    }
  }

  /** After a failed request, a comment keeps the optimistic change exactly where the emoji array already existed. */
  lemma RevertKeepsInPlaceChanges(cs: seq<Comment>, commentId: Id, emoji: Emoji, u: UserId)
    ensures var r := AliasedRevert(cs, commentId, emoji, u);
            |r| == |cs| &&
            forall j :: 0 <= j < |cs| ==>
              r[j] == if emoji in cs[j].reactions then Optimistic(cs, commentId, emoji, u)[j] else cs[j]
  {
  }

  /** The rollback restores the list exactly iff no comment with the id had the emoji key before. */
  lemma RevertExactIff(cs: seq<Comment>, commentId: Id, emoji: Emoji, u: UserId)
    ensures AliasedRevert(cs, commentId, emoji, u) == cs <==>
            forall j :: 0 <= j < |cs| && cs[j].id == commentId ==> emoji !in cs[j].reactions
  {
    var r := AliasedRevert(cs, commentId, emoji, u);
    if exists j :: 0 <= j < |cs| && cs[j].id == commentId && emoji in cs[j].reactions {
      var j :| 0 <= j < |cs| && cs[j].id == commentId && emoji in cs[j].reactions;
      ToggleUserChanges(cs[j].reactions[emoji], u);
      assert r[j].reactions[emoji] != cs[j].reactions[emoji];
      assert r[j] != cs[j];
    } else {
      assert forall j :: 0 <= j < |cs| ==> r[j] == cs[j];
    }
  }

  // ------------------------------------------------------------ cell steps

  /** The arrays of one matching comment after its optimistic step: `users` is the old array or a new `[]`. */
  function StepArrays(rs: map<Emoji, seq<UserId>>, keys: set<Emoji>, emoji: Emoji, u: UserId): map<Emoji, seq<UserId>>
    requires keys <= rs.Keys
  {
    rs[emoji := ToggleUser(if emoji in keys then rs[emoji] else [], u)]
  }

  function OptCell(c: CommentCell, commentId: Id, emoji: Emoji): CommentCell {
    if c.id == commentId then c.(keys := c.keys + {emoji}) else c
  }

  /** The state the loop leaves: each matching cell's arrays stepped, everything else as it was. */
  ghost predicate Stepped(cells: seq<CommentCell>, store: ArrayStore, st: ArrayStore, n: nat, commentId: Id, emoji: Emoji, u: UserId)
    requires AllBacked(cells, store) && n <= |cells|
  {
    && st.Keys == store.Keys
    && (forall h :: h in store && (forall j :: 0 <= j < |cells| ==> cells[j].home != h) ==> st[h] == store[h])
    && forall j :: 0 <= j < |cells| ==>
         st[cells[j].home] ==
           if j < n && cells[j].id == commentId then StepArrays(store[cells[j].home], cells[j].keys, emoji, u)
           else store[cells[j].home]
  }

  /**
   * One turn of the loop: cell `i` still reads its snapshot arrays, and
   * stepping them (when it matches) extends the stepped prefix by one.
   */
  lemma StepOne(cells: seq<CommentCell>, store: ArrayStore, st: ArrayStore, i: nat, commentId: Id, emoji: Emoji, u: UserId)
    requires AllBacked(cells, store) && DistinctHomes(cells) && i < |cells|
    requires Stepped(cells, store, st, i, commentId, emoji, u)
    ensures Backed(cells[i], st) && st[cells[i].home] == store[cells[i].home]
    ensures cells[i].id == commentId ==>
              Stepped(cells, store, st[cells[i].home := StepArrays(st[cells[i].home], cells[i].keys, emoji, u)], i + 1, commentId, emoji, u)
    ensures cells[i].id != commentId ==> Stepped(cells, store, st, i + 1, commentId, emoji, u)
  {
    assert Backed(cells[i], store);
    if cells[i].id == commentId {
      var h := cells[i].home;
      var st' := st[h := StepArrays(st[h], cells[i].keys, emoji, u)];
      forall j | 0 <= j < |cells|
        ensures st'[cells[j].home] ==
          if j < i + 1 && cells[j].id == commentId then StepArrays(store[cells[j].home], cells[j].keys, emoji, u)
          else store[cells[j].home]
      {
        if j != i {
          assert cells[j].home != h;
        }
      }
    }
  }

  /** Reading the arrays of `keys` after one array was written. */
  lemma ReadAfterWrite(rs: map<Emoji, seq<UserId>>, keys: set<Emoji>, emoji: Emoji, val: seq<UserId>)
    requires keys <= rs.Keys
    ensures (map e | e in keys + {emoji} :: rs[emoji := val][e]) == (map e | e in keys :: rs[e])[emoji := val]
    ensures emoji in keys ==> (map e | e in keys :: rs[emoji := val][e]) == (map e | e in keys :: rs[e])[emoji := val]
    ensures emoji !in keys ==> (map e | e in keys :: rs[emoji := val][e]) == (map e | e in keys :: rs[e])
  {
  }

  lemma CellSteps(c: CommentCell, store: ArrayStore, st: ArrayStore, commentId: Id, emoji: Emoji, u: UserId)
    requires Backed(c, store) && c.id == commentId && st.Keys == store.Keys
    requires st[c.home] == StepArrays(store[c.home], c.keys, emoji, u)
    ensures Backed(OptCell(c, commentId, emoji), st) && Backed(c, st)
    ensures CellView(OptCell(c, commentId, emoji), st) == OptComment(CellView(c, store), commentId, emoji, u)
    ensures CellView(c, st) == RevComment(CellView(c, store), commentId, emoji, u)
  {
    var rs := store[c.home];
    var v := CellView(c, store);
    var val := ToggleUser(if emoji in c.keys then rs[emoji] else [], u);
    assert v.reactions == map e | e in c.keys :: rs[e];
    assert ReactorsOf(v.reactions, emoji) == if emoji in c.keys then rs[emoji] else [];
    ReadAfterWrite(rs, c.keys, emoji, val);
  }

  /** Once every cell is stepped, the cells show the optimistic list and the snapshot shows the aliased revert. */
  lemma SteppedViews(cells: seq<CommentCell>, store: ArrayStore, st: ArrayStore, updated: seq<CommentCell>, commentId: Id, emoji: Emoji, u: UserId)
    requires AllBacked(cells, store) && Stepped(cells, store, st, |cells|, commentId, emoji, u)
    requires |updated| == |cells| && forall j :: 0 <= j < |cells| ==> updated[j] == OptCell(cells[j], commentId, emoji)
    ensures AllBacked(updated, st) && AllBacked(cells, st)
    ensures DistinctHomes(cells) ==> DistinctHomes(updated)
    ensures View(updated, st) == Optimistic(View(cells, store), commentId, emoji, u)
    ensures View(cells, st) == AliasedRevert(View(cells, store), commentId, emoji, u)
  {
    forall j | 0 <= j < |cells|
      ensures Backed(updated[j], st) && Backed(cells[j], st)
      ensures CellView(updated[j], st) == OptComment(CellView(cells[j], store), commentId, emoji, u)
      ensures CellView(cells[j], st) == RevComment(CellView(cells[j], store), commentId, emoji, u)
    {
      if cells[j].id == commentId {
        CellSteps(cells[j], store, st, commentId, emoji, u);
      }
    }
  }

  // ------------------------------------------------------------ photo tags

  /** `photos.map(p => p.id === id ? photo : p)`. */
  function ReplaceById(ps: seq<Photo>, id: Id, photo: Photo): seq<Photo> {
    seq(|ps|, i requires 0 <= i < |ps| => if ps[i].id == id then photo else ps[i])
  }

  /** Replacing by id twice is replacing once with the second photo: the revert overrides the optimistic write. */
  lemma ReplaceByIdTwice(ps: seq<Photo>, id: Id, a: Photo, b: Photo)
    requires a.id == id
    ensures ReplaceById(ReplaceById(ps, id, a), id, b) == ReplaceById(ps, id, b)
  {
  }

  /** Only photos with the id change; each of them becomes the given photo. */
  lemma ReplaceByIdEffect(ps: seq<Photo>, id: Id, photo: Photo)
    ensures |ReplaceById(ps, id, photo)| == |ps|
    ensures forall j :: 0 <= j < |ps| && ps[j].id != id ==> ReplaceById(ps, id, photo)[j] == ps[j]
    ensures forall j :: 0 <= j < |ps| && ps[j].id == id ==> ReplaceById(ps, id, photo)[j] == photo
  {
  }

  /**
   * The tag rollback restores the list exactly iff every photo with the id
   * equals `ps[k]`; the failure branch of `HandleUpdateTags` writes back
   * `ps[k]` for `k` the `findIndex` position of the id.
   */
  lemma TagRevertExactIff(ps: seq<Photo>, k: nat)
    requires k < |ps|
    ensures ReplaceById(ps, ps[k].id, ps[k]) == ps <==> forall j :: 0 <= j < |ps| && ps[j].id == ps[k].id ==> ps[j] == ps[k]
  {
    var r := ReplaceById(ps, ps[k].id, ps[k]);
    if exists j :: 0 <= j < |ps| && ps[j].id == ps[k].id && ps[j] != ps[k] {
      var j :| 0 <= j < |ps| && ps[j].id == ps[k].id && ps[j] != ps[k];
      assert r[j] != ps[j];
    }
  }

  /**
   * The updater of `handleToggleReaction` over the cells: a matching cell's
   * array for the emoji is replaced in its own reactions object (shared with
   * the snapshot) and the cell gets a new object; other cells are kept. The
   * result shows the optimistic list, and the untouched snapshot cells now
   * show the aliased revert.
   */
  method ToggleInCells(cells: seq<CommentCell>, store: ArrayStore, commentId: Id, emoji: Emoji, u: UserId)
    returns (updated: seq<CommentCell>, st: ArrayStore)
    requires AllBacked(cells, store) && DistinctHomes(cells)
    ensures AllBacked(updated, st) && DistinctHomes(updated) && AllBacked(cells, st)
    ensures View(updated, st) == Optimistic(View(cells, store), commentId, emoji, u)
    ensures View(cells, st) == AliasedRevert(View(cells, store), commentId, emoji, u)
  {
    st := store;
    updated := [];
    var i := 0;
    while i < |cells|
      invariant 0 <= i <= |cells| && |updated| == i
      invariant forall j :: 0 <= j < i ==> updated[j] == OptCell(cells[j], commentId, emoji)
      invariant Stepped(cells, store, st, i, commentId, emoji, u)
    {
      var c := cells[i];
      StepOne(cells, store, st, i, commentId, emoji, u);
      if c.id == commentId {
        var reactions := st[c.home];
        var users := if emoji in c.keys then reactions[emoji] else [];
        users := ToggleUser(users, u);
        st := st[c.home := reactions[emoji := users]];
        updated := updated + [c.(keys := c.keys + {emoji})];
      } else {
        updated := updated + [c];
      }
      i := i + 1;
    }
    SteppedViews(cells, store, st, updated, commentId, emoji, u);
  }

  // ------------------------------------------------------------- component

  /** The Lightbox component's `photos` and `comments` state, with the reactor arrays behind the comments. */
  class LightboxState {
    var photos: seq<Photo>
    var comments: seq<CommentCell>
    var store: ArrayStore

    ghost predicate Valid()
      reads this
    {
      AllBacked(comments, store) && DistinctHomes(comments)
    }

    /** The comments as the component renders them. */
    function Shown(): seq<Comment>
      reads this
      requires Valid()
    {
      View(comments, store)
    }

    constructor ()
      ensures Valid() && photos == [] && Shown() == []
    {
      photos, comments, store := [], [], map[];
    }

    /** `setComments(fetched)`: parsed JSON, so every comment is a new object with new arrays. */
    method LoadComments(cs: seq<Comment>)
      modifies this
      ensures Valid() && Shown() == cs && photos == old(photos)
    {
      comments := seq(|cs|, i requires 0 <= i < |cs| =>
        CommentCell(cs[i].id, cs[i].photoId, cs[i].author, cs[i].text, cs[i].createdAt, cs[i].parentId, i, cs[i].reactions.Keys));
      store := map i: nat | i < |cs| :: cs[i].reactions;
      forall i | 0 <= i < |cs| ensures Backed(comments[i], store) && CellView(comments[i], store) == cs[i] {
        assert CellView(comments[i], store).reactions == cs[i].reactions;
      }
    }

    /**
     * `handleToggleReaction`: snapshot, optimistic write, then the request,
     * whose failure (`fails`) puts the snapshot back. On success every comment
     * with the id is toggled; on failure the in-place array changes stay.
     */
    method HandleToggleReaction(commentId: Id, emoji: Emoji, u: UserId, fails: bool)
      requires Valid()
      modifies this
      ensures Valid() && photos == old(photos)
      ensures !fails ==> Shown() == Optimistic(old(Shown()), commentId, emoji, u)
      ensures fails ==> Shown() == AliasedRevert(old(Shown()), commentId, emoji, u)
    {
      var original := comments;
      var updated, st := ToggleInCells(original, store, commentId, emoji, u);
      comments, store := updated, st;
      if fails {
        comments := original;
      }
    }

    /**
     * `handleUpdateTags`: with no current photo nothing happens; otherwise every
     * photo with the current id becomes the updated copy, and a failed request
     * puts back the copy taken of the current photo before the write.
     */
    method HandleUpdateTags(photoId: Id, newTags: seq<string>, fails: bool)
      modifies this
      ensures comments == old(comments) && store == old(store)
      ensures var k := KeyIndex(old(photos), MockApi.PhotoKey, photoId);
              if k < 0 then photos == old(photos)
              else if fails then photos == ReplaceById(old(photos), photoId, old(photos)[k])
              else photos == ReplaceById(old(photos), photoId, old(photos)[k].(tags := newTags))
    {
      var k := KeyIndex(photos, MockApi.PhotoKey, photoId);
      if k < 0 {
        return;
      }
      var originalPhoto := photos[k];
      var updatedPhoto := originalPhoto.(tags := newTags);
      photos := ReplaceById(photos, updatedPhoto.id, updatedPhoto);
      if fails {
        ReplaceByIdTwice(old(photos), photoId, updatedPhoto, originalPhoto);
        photos := ReplaceById(photos, originalPhoto.id, originalPhoto);
      }
    }
  }

  // ----------------------------------------------------------- TagsManager

  datatype TagsManagerState = TagsManagerState(tagInput: string, suggestions: seq<string>, showSuggestions: bool)

  /** The new input state, and the tag list handed to `onTagsUpdate` if it was called. */
  datatype TagsOutcome = TagsOutcome(state: TagsManagerState, update: Option<seq<string>>)

  const SuggestionLimit: nat := 5

  /** `handleInputChange`: non-blank input shows up to five matches not on the photo; blank input only hides the list. */
  function TagInputChange(st: TagsManagerState, allTags: seq<string>, photoTags: seq<string>, value: string, lower: string -> string): (r: TagsManagerState)
    ensures r.tagInput == value
    ensures r.showSuggestions <==> Trim(value) != ""
    ensures r.showSuggestions ==> (
              && |r.suggestions| <= 5
              && (forall t :: t in r.suggestions ==> t in allTags && t !in photoTags && Includes(lower(t), lower(value)))
              && (|r.suggestions| < 5 ==> forall t :: t in allTags && t !in photoTags && Includes(lower(t), lower(value)) ==> t in r.suggestions))
    ensures !r.showSuggestions ==> r.suggestions == st.suggestions
  {
    if Trim(value) != "" then TagsManagerState(value, Suggest(allTags, photoTags, value, lower, SuggestionLimit), true)
    else st.(tagInput := value, showSuggestions := false)
  }

  function NormalTag(tag: string, lower: string -> string): string {
    lower(Trim(tag))
  }

  /** `handleAddTag`: the trimmed, lower-cased tag is appended when non-empty and new; the input is cleared either way. */
  function TagAdd(st: TagsManagerState, photoTags: seq<string>, tagToAdd: string, lower: string -> string): (r: TagsOutcome)
    ensures r.state == st.(tagInput := "", showSuggestions := false)
    ensures r.update.Some? <==> NormalTag(tagToAdd, lower) != "" && NormalTag(tagToAdd, lower) !in photoTags
    ensures r.update.Some? ==> r.update.value == photoTags + [NormalTag(tagToAdd, lower)]
  {
    var newTag := NormalTag(tagToAdd, lower);
    var update := if newTag != "" && newTag !in photoTags then Some(photoTags + [newTag]) else None;
    TagsOutcome(st.(tagInput := "", showSuggestions := false), update)
  }

  /** `handleKeyDown`: Enter on a non-empty input adds the first suggestion if there is one, else the input. */
  function TagKeyDown(st: TagsManagerState, key: string, photoTags: seq<string>, lower: string -> string): TagsOutcome {
    if key == "Enter" && st.tagInput != "" then
      TagAdd(st, photoTags, if |st.suggestions| > 0 then st.suggestions[0] else st.tagInput, lower)
    else TagsOutcome(st, None)
  }

  /** `handleRemoveTag`: every entry equal to the tag goes, the rest stay in order. */
  function TagRemove(photoTags: seq<string>, tag: string): seq<string> {
    WithoutTag(photoTags, tag)
  }

  /** Adding keeps the photo's tags free of duplicates, and removing the added tag undoes it. */
  lemma TagAddThenRemove(st: TagsManagerState, photoTags: seq<string>, tagToAdd: string, lower: string -> string)
    requires TagAdd(st, photoTags, tagToAdd, lower).update.Some?
    ensures NoDup(photoTags) ==> NoDup(TagAdd(st, photoTags, tagToAdd, lower).update.value)
    ensures TagRemove(TagAdd(st, photoTags, tagToAdd, lower).update.value, NormalTag(tagToAdd, lower)) == photoTags
  {
    AppendThenRemove(photoTags, NormalTag(tagToAdd, lower));
  }

  /** Adding the same text again once the photo has the tag does not call `onTagsUpdate`. */
  lemma TagAddTwice(st: TagsManagerState, photoTags: seq<string>, tagToAdd: string, lower: string -> string)
    requires TagAdd(st, photoTags, tagToAdd, lower).update.Some?
    ensures TagAdd(st, TagAdd(st, photoTags, tagToAdd, lower).update.value, tagToAdd, lower).update == None
  {
  }

  /** Enter on a non-empty input does what clicking the first suggestion does, or what "+" does when there is none. */
  lemma TagEnterChoice(st: TagsManagerState, photoTags: seq<string>, lower: string -> string)
    requires st.tagInput != ""
    ensures |st.suggestions| > 0 ==> TagKeyDown(st, "Enter", photoTags, lower) == TagAdd(st, photoTags, st.suggestions[0], lower)
    ensures |st.suggestions| == 0 ==> TagKeyDown(st, "Enter", photoTags, lower) == TagAdd(st, photoTags, st.tagInput, lower)
    ensures forall key :: key != "Enter" ==> TagKeyDown(st, key, photoTags, lower) == TagsOutcome(st, None)
  {
  }

  /**
   * Blank input hides the suggestions but keeps them, and Enter still takes
   * the first: after typing text that has matches and then replacing it by
   * blanks, Enter adds a suggestion that is no longer on screen.
   */
  lemma StaleSuggestionOnEnter(st0: TagsManagerState, allTags: seq<string>, photoTags: seq<string>, typed: string, blank: string, lower: string -> string)
    requires Trim(typed) != "" && blank != "" && Trim(blank) == ""
    requires |Suggest(allTags, photoTags, typed, lower, SuggestionLimit)| > 0
    ensures var st1 := TagInputChange(st0, allTags, photoTags, typed, lower);
            var st2 := TagInputChange(st1, allTags, photoTags, blank, lower);
            && !st2.showSuggestions
            && st2.suggestions == st1.suggestions != []
            && TagKeyDown(st2, "Enter", photoTags, lower) == TagAdd(st2, photoTags, st1.suggestions[0], lower)
  {
  }

  // ------------------------------------------------------- navigation, rights

  function PhotoPath(albumId: Id, photoId: Id): string {
    "/album/" + albumId + "/photo/" + photoId
  }

  /**
   * `changePhoto`: one step forward or back from `currentIndex` (the
   * `findIndex` of the routed photo, -1 when it is missing); the path is
   * navigated to only when the new index is inside the list.
   */
  function ChangePhoto(photos: seq<Photo>, currentIndex: int, albumId: Id, forward: bool): (r: Option<string>)
    requires -1 <= currentIndex < |photos|
    ensures var n := if forward then currentIndex + 1 else currentIndex - 1;
            (r.Some? <==> 0 <= n < |photos|) &&
            (r.Some? ==> r.value == PhotoPath(albumId, photos[n].id))
  {
    if |photos| == 0 then None
    else
      var n := if forward then currentIndex + 1 else currentIndex - 1;
      if 0 <= n < |photos| then Some(PhotoPath(albumId, photos[n].id)) else None
  }

  /** Navigation never leaves the album's photos: the last photo has no next, the first no previous. */
  lemma ChangePhotoEnds(photos: seq<Photo>, albumId: Id)
    requires |photos| > 0
    ensures ChangePhoto(photos, |photos| - 1, albumId, true) == None
    ensures ChangePhoto(photos, 0, albumId, false) == None
    ensures ChangePhoto(photos, -1, albumId, true) == Some(PhotoPath(albumId, photos[0].id))
  {
  }

  /** `canDelete`: the delete button shows for an admin and for the comment's author. */
  predicate CanDelete(user: User, c: Comment) {
    user.role == AdminRole || user.name == c.author
  }

  /**
   * The author check covers only the comment itself: the cascade behind the
   * button also removes replies the author could not delete one by one.
   */
  lemma AuthorDeletesOthersReplies(t: int)
    ensures var janka := User("u2", "janka", "pw", UserRole, false, Family);
            var mine := Comment("c1", "101", "janka", "hi", t, None, map[]);
            var theirs := Comment("c2", "101", "admin", "re", t, Some("c1"), map[]);
            var cs := [mine, theirs];
            CanDelete(janka, mine) && !CanDelete(janka, theirs) &&
            IsClosure(MockApi.Links(cs), "c1", {"c1", "c2"}) &&
            MockApi.Survivors(cs, {"c1", "c2"}) == []
  {
    var mine := Comment("c1", "101", "janka", "hi", t, None, map[]);
    var theirs := Comment("c2", "101", "admin", "re", t, Some("c1"), map[]);
    var cs := [mine, theirs];
    var ls := MockApi.Links(cs);
    assert ls[0] == Link("c1", None) && ls[1] == Link("c2", Some("c1"));
    forall t: set<Id> | "c1" in t && Closed(ls, t) ensures {"c1", "c2"} <= t {
      assert ls[1] in ls;
    }
    assert Closed(ls, {"c1", "c2"}) by {
      forall l | l in ls && l.parentId.Some? && l.parentId.value in {"c1", "c2"} ensures l.id in {"c1", "c2"} {
        assert l == ls[0] || l == ls[1];
      }
    }
    MockApi.SurvivorsNone(cs, {"c1", "c2"});
  }
}
