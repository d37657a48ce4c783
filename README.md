# Threaded comments and reactions of the photo gallery

This project models the comment and reaction subsystem of a small photo
gallery: a React front end (`src/*.tsx`, with an in-memory mock store in
`src/api.ts`) and a PHP/MySQL back end (`php/index.php`). It also models the
list and state rules around that subsystem.

- **The two comment stores.**
  - The mock store is the class `MockApi.MockStore`. Its module-level arrays are fields, and its promise-returning operations are methods.
  - The SQL store is the class `PhpApi.Database`. Its tables are sequences of rows, and its request handlers are methods over the decoded request fields.
  - A thrown SQL statement is named by a fault parameter, and the rollback restores the snapshot taken when the transaction began.
  - Both stores list a photo's comments, build the latest-comments feed, post a comment and toggle a reaction.
  - Both cascade-delete a comment by a breadth-first search over `parentId` links with a visited set: `MockApi.CollectReplies` and `PhpApi.CollectIdList`.
  - Each search is proved to compute the least set that holds the start id and is closed under replies (`ReplyClosure.IsClosure`), and to stop on cycles.
- **The comment forest.** `CommentTree.BuildCommentTree` is `buildCommentTree` of the lightbox: an indexing pass, then an attaching pass. It is proved against reference functions for the replies and the roots. Lemmas cover placement, order, and reachability with and without cycles.
- **The optimistic handlers and their rollback.**
  - `Lightbox.LightboxState.HandleToggleReaction` and `HandleUpdateTags` cover the lightbox.
  - `UserList.UserListState.HandleToggleBlock` and `HandleCategoryChange` cover the user list.
  - Each handler takes a snapshot, writes the optimistic state, and then either keeps it or restores the snapshot, as the parameter `fails` says.
  - The reaction handler changes reactor arrays that the snapshot shares. The model makes this explicit: a comment is a cell whose arrays live in an explicit array store. The model proves exactly when the rollback is exact.
- **Tag input, filtering and routing.**
  - The TagsManager of the lightbox and the tag filter share the suggestion and removal rules in `TagInput`.
  - `PhotoGrid` covers the filter-and-sort of the album grid and its thumbnail URL.
  - `App` covers path parsing, the choice of content and the session handlers.

Timestamps are integers. Fresh ids and the current time are method parameters. Lower-casing is a function parameter `lower`, so in the model it can be any function.

At the edges the two stores behave as follows, and the model follows the code:
- The mock rejects an unknown delete id, but the PHP store commits a delete of nothing.
- Neither store rejects a toggle on a missing comment.
- In the feed:
  - the PHP store clamps the limit to 20 and uses 5 only when the limit is absent, so, when the `LIMIT` placeholder is bound as an integer, a limit of 0 gives an empty feed and a negative one an SQL error;
  - the mock does not clamp, so a negative limit counts back from the end.
- The mock lists a photo's comments in store order, not by date, and accepts a post to a photo that does not exist.
- The lightbox's reaction rollback is not exact whenever the emoji already had an array.

## Model

| member | source | states |
|---|---|---|
| Sorting.SortCorrect | src/PhotoGrid.tsx:45-49 | The stable sort used for `Array.prototype.sort` returns an ordered permutation of its input, for any total preorder. |
| Sorting.SortStable | src/api.ts:165-166 | Sorting keeps the input order of elements that compare equal. |
| Sorting.TopNOfSorted | src/api.ts:165-167 | A prefix of the sorted list is a top-n answer: the right length, ordered, a sub-multiset, and nothing left out ranks above anything taken. |
| Sorting.StringOrderTotal | src/api.ts:136 | The default string order of `sort()` (code-point lexicographic) is a total preorder. |
| Reactions.ToggleUserCounts | src/api.ts:200-205 | A toggle changes only how often the user occurs: one fewer when present, exactly once when absent. |
| Reactions.ToggleUserFlips | src/api.ts:200-205 | In a list holding the user at most once, a toggle flips membership and keeps at most one copy. |
| Reactions.ToggleUserTwiceAbsent | src/api.ts:200-205 | Toggling an absent user twice gives back the same list. |
| Reactions.ToggleUserTwice | src/api.ts:200-205 | Toggling twice gives back the same multiset of users; a present user moves to the end. |
| Reactions.ToggleUserChanges | src/api.ts:200-205 | A toggle always changes the list: it is one shorter or one longer. |
| Reactions.ToggleReaction | src/api.ts:194-205 | The emoji key exists afterwards; other emoji keep their arrays; the emoji's array is the toggle of the old one, or of `[]`. |
| Reactions.ToggleReactionFlips | src/api.ts:194-205 | Only the toggled (emoji, user) pair changes membership, and it flips. |
| Reactions.ToggleReactionTwice | src/api.ts:197-205 | Two toggles restore membership of every pair; a missing emoji is left with `[]`, and an absent user gives the map back exactly. |
| ReplyClosure.RepliesTo | src/api.ts:226 | The direct replies are exactly the links whose parent is the id. |
| ReplyClosure.ClosureUnique | src/api.ts:220-233 | The set to delete is determined by the links and the root. |
| ReplyClosure.ClosureSupported | src/api.ts:220-233 | Every deleted id other than the root replies to another deleted id. |
| ReplyClosure.ClosureWithin | src/api.ts:220-233 | The set to delete holds only the root and ids of stored comments. |
| ReplyClosure.ClosureOfUnreplied | php/index.php:512-529 | A root nothing replies to is its own closure, whether or not it exists. |
| ReplyClosure.ChainExample | src/api.ts:220-233 | In a chain A ← B ← C ← D, deleting A takes all four and deleting C takes C and D. |
| ReplyClosure.CycleExample | src/api.ts:224-233 | Two comments replying to each other: deleting either takes both. |
| ReplyClosure.SearchStep | src/api.ts:224-233 | One round of the search keeps the visited set forced and closed except for queued ids, and grows it whenever an unvisited child is found. |
| MockApi.Login | src/api.ts:69-85 | `users.find` decides: the first user with matching credentials is rejected when blocked and returned otherwise; no match resolves to nothing. |
| MockApi.SetBlocked | src/api.ts:91-98 | Every user with the id gets the flag and nothing else changes. |
| MockApi.SetCategory | src/api.ts:100-107 | Every user with the id gets the category and nothing else changes. |
| MockApi.SetBlockedIdempotent | src/api.ts:94 | Setting a flag twice is setting it once, and an unknown id changes nothing. |
| MockApi.AddTags | src/api.ts:147 | `Set.add` for each tag: the known tags stay as the prefix, the members are the union, and no duplicates appear. |
| MockApi.AllPhotoTags | src/api.ts:57 | `flatMap` of the tags: a tag is present iff some photo carries it. |
| MockApi.SortedTagsCorrect | src/api.ts:134-138 | `getAllTags` returns the known tags, each once, in string order. |
| MockApi.CommentsForPhoto | src/api.ts:156-161 | Exactly the comments of that photo. |
| MockApi.CommentsForPhotoAfterPost | src/api.ts:158 | A comment posted later is listed after all earlier ones, and only for its own photo: the list keeps store order. |
| MockApi.NewestFirstTotal | src/api.ts:166 | The comparator `b - a` on the timestamps is a total preorder. |
| MockApi.SliceTo | src/api.ts:167 | `slice(0, end)`: the prefix of length `min(end, n)`, or `max(n + end, 0)` for a negative end. |
| MockApi.LatestCommentsNewest | src/api.ts:163-169 | For a non-negative limit, the feed is the `limit` newest comments, newest first, with no clamp. |
| MockApi.LatestCommentsTies | src/api.ts:165-166 | A feed long enough for every comment lists comments with the same timestamp in store order. |
| MockApi.LatestCommentsNegativeLimit | src/api.ts:167 | A negative limit drops that many of the oldest comments and does not fail. |
| MockApi.NewComment | src/api.ts:174-182 | The posted comment has the given fields, the given time and an empty reactions map. |
| MockApi.ToggleInStore | src/api.ts:189-210 | Only the first comment with the id can change, and only its reactions. |
| MockApi.ToggleMissingComment | src/api.ts:192-207 | A toggle on a missing comment id changes nothing. |
| MockApi.ToggleInStoreFlips | src/api.ts:192-205 | In the matching comment exactly the (emoji, user) pair flips; every other comment is unchanged. |
| MockApi.ToggleInStoreTwice | src/api.ts:197-205 | Two identical toggles restore who reacted with what in every comment, with all other fields kept. |
| MockApi.CollectReplies | src/api.ts:220-233 | The BFS with a visited set terminates, on cycles too, and returns exactly the reply closure of the id. |
| MockApi.VisitChildren | src/api.ts:227-232 | The inner loop adds and queues exactly the unvisited children, in order, and afterwards every child is visited. |
| MockApi.Survivors | src/api.ts:235 | The comments kept are exactly those whose id is not deleted. |
| MockApi.SurvivorsNoOrphans | src/api.ts:220-235 | After the cascade no survivor replies to a deleted comment, and each survivor keeps its multiplicity. |
| MockApi.SurvivorsNone | src/api.ts:235 | Deleting a set that holds every stored id leaves nothing. |
| MockApi.DeleteThreadExample | src/api.ts:212-239 | Deleting the head of a three-comment thread deletes the whole thread, leaving the photo with no comments. |
| MockApi.MockStore.constructor | src/api.ts:4-57 | The initial arrays, and the tag set holding exactly the tags of the photos. |
| MockApi.MockStore.UpdateUserStatus | src/api.ts:91-98 | `users` becomes `SetBlocked` of the old users; nothing else changes. |
| MockApi.MockStore.UpdateUserCategory | src/api.ts:100-107 | `users` becomes `SetCategory` of the old users; nothing else changes. |
| MockApi.MockStore.UpdatePhotoTags | src/api.ts:140-154 | A known photo gets the tags and the tag set learns them; an unknown photo is rejected with nothing changed. |
| MockApi.MockStore.PostComment | src/api.ts:171-187 | Exactly one new comment is appended and returned, and the existing comments are kept. |
| MockApi.MockStore.ToggleCommentReaction | src/api.ts:189-210 | `comments` becomes `ToggleInStore` of the old comments; nothing else changes. |
| MockApi.MockStore.DeleteComment | src/api.ts:212-239 | An unknown id is rejected with nothing changed; otherwise exactly the reply closure is removed and the rest keep their order. |
| PhpApi.EmojisFor | php/index.php:379-381 | The `GROUP BY emoji` keys: no duplicates, and exactly the emoji with a row for the comment. |
| PhpApi.UsersFor | php/index.php:379 | `GROUP_CONCAT(user_id)` holds exactly the users with a row for the comment and emoji; the model lists them in table order. |
| PhpApi.Groups | php/index.php:379-384 | One group per emoji, holding the comma-joined users. |
| PhpApi.FromGroupsKeys | php/index.php:386-389 | The map built from the groups has a key for each group and no other. |
| PhpApi.FromGroupsLast | php/index.php:387-388 | A later group for the same emoji overwrites the earlier one. |
| PhpApi.ReactionMapExact | php/index.php:377-390 | With comma-free user ids, the attached map says exactly who reacted with what; each list is the model's table-order `GROUP_CONCAT`. |
| PhpApi.ReactionMapKeys | php/index.php:386-389 | The attached map's keys are exactly the grouped emoji. |
| PhpApi.ReactionMapUsers | php/index.php:388 | `explode` of a `GROUP_CONCAT` gives the users back when no id holds a comma. |
| PhpApi.ReactionMapEmpty | php/index.php:386 | A comment without reaction rows gets an empty map. |
| PhpApi.ReactionsOf | php/index.php:386-389 | The inner loop computes the reaction map of the comment. |
| PhpApi.ExplodeGroups | php/index.php:386-389 | Folding the groups in order gives the map of `explode` per emoji, a later group overwriting an earlier one. |
| PhpApi.AttachReactions | php/index.php:377-390 | Every selected row is kept with its columns and gets its own reaction map. |
| PhpApi.RowOrdersTotal | php/index.php:371 | `ORDER BY created_at` and `ORDER BY created_at DESC` are total preorders. |
| PhpApi.EffectiveLimit | php/index.php:397 | `min(limit ?? 5, 20)`: never more than 20, and 5 when absent. |
| PhpApi.ToggleRow | php/index.php:475-495 | The row is present afterwards iff it was absent before; every other row keeps its count. |
| PhpApi.ToggleRowTwice | php/index.php:475-495 | Two identical toggles restore the table: exactly when the row was absent, and as a multiset when it was there once. |
| PhpApi.CollectIdList | php/index.php:512-529 | The id list starts with the id, holds no duplicates, and its set is exactly the reply closure. |
| PhpApi.VisitChildIds | php/index.php:523-528 | The `foreach` appends to the list and the queue exactly the child ids not yet listed, keeps the list duplicate-free, and leaves every child listed. |
| PhpApi.CommentsOutside | php/index.php:539-542 | The comment delete keeps exactly the rows whose id is outside the set. |
| PhpApi.ReactionsOutside | php/index.php:532-536 | The reaction delete keeps exactly the rows whose comment is outside the set. |
| PhpApi.CascadeKeepsIntegrity | php/index.php:531-542 | Deleting the closure's reactions and then its comments keeps every reaction and every reply pointing at a stored comment, after each statement. |
| PhpApi.CommentsFirstBreaksIntegrity | php/index.php:531-542 | Deleting in the other order would leave a reaction to a deleted comment in between. |
| PhpApi.DeleteUnknownId | php/index.php:503-545 | An id that no comment has or replies to deletes no comment, and no reaction that names a stored comment. |
| PhpApi.UnrepliedRowClosure | php/index.php:512-529 | An id no row replies to is its own closure. |
| PhpApi.TagRowsFor | php/index.php:347-351 | One `(photo, tag)` row per tag, in order. |
| PhpApi.TagReplaceEffect | php/index.php:342-351 | After the replace, the photo's tags are the new list in order, and every other photo keeps its tags. |
| PhpApi.Database.constructor | php/index.php:5-10 | The four tables as given. |
| PhpApi.Database.GetLatestComments | php/index.php:395-423 | With the limit bound as an integer: a negative effective limit is an error; otherwise the top `min(limit ?? 5, 20)` comments newest first, each with its reactions. |
| PhpApi.Database.GetCommentsForPhoto | php/index.php:362-393 | A falsy photo id gives 400; otherwise exactly that photo's comments oldest first, each with its reactions. |
| PhpApi.Database.PostComment | php/index.php:425-465 | A missing field gives 400 and an unknown photo 404, with no insert; otherwise one row is appended and returned with empty reactions and the given or null parent. |
| PhpApi.Database.ToggleCommentReaction | php/index.php:467-498 | A missing field gives 400; otherwise the reaction table is toggled on the triple, with no comment check. |
| PhpApi.Database.DeleteComment | php/index.php:500-550 | A missing id gives 400. Otherwise, on success, the closure's reactions are deleted and then its comments; any failing statement gives 500 with both tables restored. |
| PhpApi.Database.UpdatePhotoTags | php/index.php:324-360 | 400 or 404 before any change. Otherwise the photo's rows are replaced by one row per tag; a failing statement gives 500 with the table restored. |
| PhpApi.HandlerNamed | php/index.php:44-86 | A handler is found only under its own endpoint name. |
| PhpApi.HandlerNamedInverse | php/index.php:44-86 | Every handler's endpoint name selects that handler. |
| PhpApi.RouteSpec | php/index.php:38-93 | 404 exactly when no handler has the endpoint's name; otherwise that handler on its own method and an empty reply on any other. |
| PhpApi.EndpointOfApiPath | php/index.php:41 | `str_replace('/api/', '', path)` maps `/api/<name>` and a bare `<name>` to the name. |
| PhpApi.RouteTable | php/index.php:44-89 | Each handler is reached by its own method on `/api/<name>` and by no other method. |
| CommentTree.ChildIds | src/Lightbox.tsx:25-31 | A comment's id is among `p`'s replies iff it is attached to `p`. |
| CommentTree.RootIds | src/Lightbox.tsx:25-31 | A comment's id is among the roots iff it is not attached: the parent id is empty, absent, or not in the input. |
| CommentTree.LastByIdSpec | src/Lightbox.tsx:21-23 | The index holds every input id, each with the last comment that has it. |
| CommentTree.IndexComments | src/Lightbox.tsx:21-23 | The first pass yields that index and an empty reply list for every id. |
| CommentTree.BuildStep | src/Lightbox.tsx:25-31 | The pass's test is exactly attachment to an input parent, and either branch places one more comment consistently with the reference lists. |
| CommentTree.BuildCommentTree | src/Lightbox.tsx:17-34 | The nodes are the index, every reply list is the reference `ChildIds`, and the roots are `RootIds`, all in input order. |
| CommentTree.ChildIdsConcat | src/Lightbox.tsx:25-31 | Reply lists keep input order: splitting the input splits every list the same way. |
| CommentTree.RootIdsConcat | src/Lightbox.tsx:25-31 | The roots keep input order in the same way. |
| CommentTree.ReplyBeforeParent | src/Lightbox.tsx:21-31 | A reply listed before its parent is still attached to it. |
| CommentTree.PlacedOnce | src/Lightbox.tsx:17-34 | With unique ids each comment is placed exactly once: among the roots, or in its parent's replies. |
| CommentTree.ParentClosedUnreachable | src/Lightbox.tsx:25-31 | Comments whose parents all lie within a set, such as a `parentId` cycle, are never reached from the roots. |
| CommentTree.MutualRepliesUnreachable | src/Lightbox.tsx:25-31 | Two comments replying to each other are neither roots nor reachable. |
| CommentTree.ReachWithin | src/Lightbox.tsx:215-228 | Rendering from the roots reaches only input comments. |
| CommentTree.AcyclicAllReachable | src/Lightbox.tsx:17-34 | Without parent cycles, witnessed by a rank, every input comment is reached from the roots. |
| TagInput.Suggest | src/Lightbox.tsx:62-66 | At most `limit` known tags, each matching case-insensitively and not taken, and every such tag when below the limit. Over duplicate-free known tags the result has no duplicates, keeps their order, and is the first matching tags: none that comes earlier is cut. |
| TagInput.WithoutTag | src/Lightbox.tsx:91 | Every entry equal to the tag is removed, and all other tags keep their counts. |
| TagInput.AppendThenRemove | src/MultiTagFilter.tsx:50-58 | Removing a tag that was just appended gives the list back. |
| TagInput.RemoveAbsent | src/MultiTagFilter.tsx:58 | Removing a tag that is not there changes nothing. |
| TagInput.AppendKeepsNoDup | src/MultiTagFilter.tsx:49-50 | Appending a new tag keeps a duplicate-free list duplicate-free. |
| Lightbox.OptimisticFlips | src/Lightbox.tsx:355-370 | The optimistic update changes only comments with the id, and only their reactions. There it flips the user's reaction with the emoji and keeps every other pair. |
| Lightbox.OptimisticMatchesStore | src/Lightbox.tsx:355-374 | With unique ids the optimistic list is exactly what the mock store computes for the same request. |
| Lightbox.RevertKeepsInPlaceChanges | src/Lightbox.tsx:353-377 | After a failure, a comment keeps the optimistic change exactly when the emoji's array already existed. |
| Lightbox.RevertExactIff | src/Lightbox.tsx:353-377 | The rollback restores the list exactly iff no comment with the id had the emoji key before. |
| Lightbox.ReplaceByIdEffect | src/Lightbox.tsx:340 | Only photos with the id change, and each becomes the given photo. |
| Lightbox.ReplaceByIdTwice | src/Lightbox.tsx:340-347 | The revert write overrides the optimistic write for that id. |
| Lightbox.TagRevertExactIff | src/Lightbox.tsx:336-347 | The tag rollback is exact iff every photo with the id equals the current one. |
| Lightbox.LightboxState.constructor | src/Lightbox.tsx:236-237 | No photos and no comments. |
| Lightbox.LightboxState.LoadComments | src/Lightbox.tsx:251-255 | Fetched comments are fresh objects; the screen shows them as given. |
| Lightbox.LightboxState.HandleToggleReaction | src/Lightbox.tsx:352-380 | On success the screen shows the optimistic toggle of the old screen; on failure it shows the aliased revert. The cell invariant is kept. |
| Lightbox.ToggleInCells | src/Lightbox.tsx:355-370 | The updater's `map` over the cells shows the optimistic toggle, while the shared arrays it changes in place make the snapshot show the aliased revert. |
| Lightbox.LightboxState.HandleUpdateTags | src/Lightbox.tsx:333-350 | With no current photo nothing changes. Otherwise photos with the id get the new tags, and on failure the copy of the current photo is put back. |
| Lightbox.TagInputChange | src/Lightbox.tsx:58-71 | Non-blank input shows at most 5 matching tags not on the photo, all of them when fewer; blank input hides the list and keeps it. |
| Lightbox.TagAdd | src/Lightbox.tsx:73-80 | The trimmed, lower-cased tag is appended iff it is non-empty and new; the input is cleared either way. |
| Lightbox.TagAddThenRemove | src/Lightbox.tsx:73-92 | Adding keeps a duplicate-free tag list duplicate-free, and removing the added tag undoes it. |
| Lightbox.TagAddTwice | src/Lightbox.tsx:75 | Adding the same text again does not call `onTagsUpdate`. |
| Lightbox.TagEnterChoice | src/Lightbox.tsx:82-88 | Enter on a non-empty input adds the first suggestion, or else the input; other keys do nothing. |
| Lightbox.StaleSuggestionOnEnter | src/Lightbox.tsx:62-70 | After blank input, Enter still adds the first of the hidden suggestions. |
| Lightbox.ChangePhoto | src/Lightbox.tsx:282-288 | It navigates iff the new index is in `[0, length)`, and then to that photo's path. |
| Lightbox.ChangePhotoEnds | src/Lightbox.tsx:282-288 | There is no next after the last photo and no previous before the first; from a missing photo, next opens the first. |
| Lightbox.AuthorDeletesOthersReplies | src/Lightbox.tsx:155 | The delete button checks only the comment's own author, but the cascade behind it also removes others' replies. |
| PhotoGrid.PhotoOrderTotal | src/PhotoGrid.tsx:45-49 | Both date comparators are total preorders. |
| PhotoGrid.DisplayedPhotosCorrect | src/PhotoGrid.tsx:39-50 | A photo is shown iff it carries every selected tag, as often as the album has it, ordered by date in the chosen direction. |
| PhotoGrid.EmptySelectionShowsAll | src/PhotoGrid.tsx:42 | With no tag selected the grid shows the whole album, only reordered. |
| PhotoGrid.SameDateKeepsAlbumOrder | src/PhotoGrid.tsx:45-49 | Photos with the same date keep their album order. |
| PhotoGrid.ThumbnailShape | src/PhotoGrid.tsx:97 | The first `1920/1080` is replaced by `800/600`; a URL without it is kept. |
| MultiTagFilter.InputChange | src/MultiTagFilter.tsx:32-45 | Non-blank input shows at most 10 matching tags not selected, all of them when fewer; blank input hides the list and keeps it. |
| MultiTagFilter.AddTag | src/MultiTagFilter.tsx:47-55 | The trimmed tag is appended iff it is non-empty and not selected; the input is cleared either way. |
| MultiTagFilter.AddTagThenRemove | src/MultiTagFilter.tsx:47-58 | Adding keeps the selection duplicate-free, and removing the added tag undoes it. |
| MultiTagFilter.BackspaceDropsLast | src/MultiTagFilter.tsx:70-71 | Backspace on an empty input drops exactly the last tag of a duplicate-free selection. |
| MultiTagFilter.EnterChoice | src/MultiTagFilter.tsx:63-69 | Enter on a non-empty input adds the first suggestion, or else the input. |
| MultiTagFilter.OtherKeysIgnored | src/MultiTagFilter.tsx:62-73 | Any other key, or Backspace over text or an empty selection, changes nothing. |
| MultiTagFilter.BlankInputKeepsSuggestions | src/MultiTagFilter.tsx:36-44 | Blank input hides the suggestions without dropping them; focus shows them again, and Enter adds the first. |
| UserList.FlipBlockedEffect | src/UserList.tsx:42-46 | Only users with the target id change, only in `isBlocked`, and it flips. |
| UserList.FlipBlockedTwice | src/UserList.tsx:42-46 | Flipping twice gives back the list. |
| UserList.FlipMatchesRequest | src/UserList.tsx:42-49 | When the row shows the list's flag, the optimistic list equals what the store makes of the request sent. |
| UserList.StaleRowDisagrees | src/UserList.tsx:42-49 | A row rendered from an older list makes the screen and the store disagree. |
| UserList.UserListState.constructor | src/UserList.tsx:16 | The list as given. |
| UserList.UserListState.HandleToggleBlock | src/UserList.tsx:38-55 | The own row does nothing. Otherwise the flag flips, the negated row flag is sent, and a failure restores the snapshot exactly. |
| UserList.UserListState.HandleCategoryChange | src/UserList.tsx:57-69 | The category changes for that user, the request is sent, and a failure restores the snapshot exactly. |
| App.Segments | src/App.tsx:80 | Every part is non-empty and free of `/`. |
| App.ParseRouteShape | src/App.tsx:81-83 | A photo id is read only inside an album, and every id read is a non-empty segment. |
| App.PhotoPathRoundTrip | src/App.tsx:80-83 | The lightbox path of an album and photo parses back to that album and photo. |
| App.SlashesCollapse | src/App.tsx:80 | An example: in `//album/<id>/` the doubled leading slash and the trailing slash add no segment, so it routes like `/album/<id>`. |
| App.RenderContent | src/App.tsx:85-95 | The user list iff the view is `users` for an admin; else the grid of a present album id; else the albums. |
| App.Render | src/App.tsx:76-150 | The login form iff there is no user; the widget iff the user is an admin; the lightbox iff a photo id is routed. |
| App.NonAdminRestricted | src/App.tsx:86-141 | A non-admin never gets the user list or the comments widget, whatever the path. |
| App.Logout | src/App.tsx:55-59 | No user, the widget hidden, the path `/`. |
| App.LoginSuccess | src/App.tsx:48-53 | The user is set, and both branches navigate to `redirectPath`. |
| App.LogoutThenLogin | src/App.tsx:48-59 | Logging out shows the login form, and logging in again lands on the path first opened, with the widget hidden. |
| App.OpenFromCommentShowsPhoto | src/App.tsx:61-74 | Opening a found photo from the feed shows that photo's lightbox over its album's grid. |

## Left out

- Timers, latency (`setTimeout`, `usleep`), promise interleaving and the feed's `setInterval` polling are left out: each handler runs as one sequential step, snapshot then optimistic write then success or failure.
- Lightbox.LightboxState.HandleToggleReaction: the `setComments` updater is taken to run on the same list as the snapshot. React may run it later, on a newer list; that interleaving is not modelled.
- React rendering, hooks, DOM events, `window.confirm`, `alert`, `history.pushState` and `popstate` are left out. Navigation is a change of the `path` field only.
- The last line of php/index.php calls `handleRequest()` without `echo`, so a handler's `return json_encode(...)` never reaches the response; only `sendError` writes a body. The model describes each handler's result and the table changes, not the bytes sent.
- The PDO connection, JSON encoding and decoding, and the emission of HTTP codes are left out. A handler takes its already decoded fields, with absent or null as `None`. `sendError` is an `Err` result.
- `indexPhotos`, `php/config.php`, `src/useJxlDecoder.ts`, `src/LazyImage.tsx`, `src/AlbumGrid.tsx` and `src/Login.tsx` are not part of this model: they are file-system scanning, configuration, a foreign image decoder and plain UI.
- The other PHP handlers (`login`, `getUsers`, the album and photo getters, `getAllTags`) and the unrouted `updateUserStatus` and `updateUserCategory` are left out. The model covers only their routing.
- `handlePostComment` and `handleDeleteComment` of the lightbox are left out. They only call the modelled store operations and then refetch.
- The TagsManager's `onFocus` reruns `handleInputChange` with the current text, so it is `TagInputChange` and has no member of its own.
- Id and time generation (`uniqid`, `date`, `Date.now()`, `toISOString`) are method parameters. Date strings are integer timestamps, so invalid dates (`NaN` in the comparators) are not modelled.
- `toLowerCase` is an arbitrary function parameter, with no Unicode case mapping.
- `String.prototype.trim`'s whitespace set is the model's `IsJsWhitespace` list.
- The default `sort()` compares UTF-16 code units, while the model compares characters; the two agree outside surrogate pairs. MySQL collations are not modelled: `ORDER BY` and `=` are exact comparisons.
- PhpApi.Database.GetLatestComments: the limit is an integer bound as an integer. The code leaves PDO's emulated prepares on (php/index.php:14-21) and passes the value to `execute` as a parameter (php/index.php:403). A limit from the query string is a string, and when it is at most 20 it survives `min` as that string. It is then sent quoted (`LIMIT '10'`), MySQL rejects the query, and the catch gives 500. Only the absent-limit default 5, an integer, reaches the query as the model has it. PHP's `min` on a non-numeric string is not modelled either.
- PhpApi.CollectIdList: `in_array` with loose comparison is modelled as exact string equality. PHP would treat numeric strings such as `"1"` and `"01"` as equal.
- PhpApi.ReactionMapExact: stated only for user ids without commas. `GROUP_CONCAT` truncation at `group_concat_max_len` is not modelled.
- PhpApi.UsersFor: the query has no `ORDER BY` inside `GROUP_CONCAT`, so MySQL leaves the order of users within a group unspecified. The model takes table order, so the order of each list in `ReactionMapExact` and `ReactionMapUsers` is a modelling choice; only the members are what the program promises.
- PhpApi.Database.GetCommentsForPhoto: rows with the same `created_at` come in no promised order, so the contract states sortedness and the multiset rather than one order. `GetLatestComments` likewise states a top-n relation.
- PhpApi.Database.PostComment: a failing insert is not modelled. Outside a transaction it would only give 500 with nothing changed.
- PhpApi.Database.ToggleCommentReaction: a failing statement is not modelled. Each branch runs a single statement.
- JavaScript property lookups on inherited names (a tag or emoji such as `constructor` used as an object key) are not modelled: maps hold only their own keys.
- Lightbox.ChangePhoto: requires `-1 <= currentIndex < length`, which is always true of the `findIndex` value it receives.
- React StrictMode's double invocation of state updaters is not modelled. With an in-place splice or push, it would toggle twice.
