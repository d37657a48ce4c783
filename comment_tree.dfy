/**
 * `buildCommentTree` of src/Lightbox.tsx. The first pass gives every id one
 * node; the second pushes each comment's node onto its parent's `replies` or
 * onto the roots. A node is identified by its id (the map holds one node per
 * id), so the forest is kept as `replies: id -> child ids` plus the root ids.
 */
module CommentTree {
  import opened Common
  import opened Model

  function IdSet(cs: seq<Comment>): set<Id> {
    set c | c in cs :: c.id
  }

  /** `comment.parentId && commentsMap[comment.parentId]`: a truthy parent id that some input comment has. */
  predicate Attached(c: Comment, ids: set<Id>) {
    c.parentId.Some? && c.parentId.value != "" && c.parentId.value in ids
  }

  predicate AttachedTo(c: Comment, ids: set<Id>, p: Id) {
    Attached(c, ids) && c.parentId.value == p
  }

  /** The ids pushed onto `p`'s replies by the comments of `s`, in order. */
  function ChildIds(s: seq<Comment>, ids: set<Id>, p: Id): (r: seq<Id>)
    ensures forall y :: y in r <==> exists i :: 0 <= i < |s| && s[i].id == y && AttachedTo(s[i], ids, p)
  {
    if |s| == 0 then []
    else
      var n := |s| - 1;
      var r0 := ChildIds(s[..n], ids, p);
      assert forall i :: 0 <= i < n ==> s[..n][i] == s[i];
      r0 + if AttachedTo(s[n], ids, p) then [s[n].id] else []
  }

  /** The ids pushed onto the roots by the comments of `s`, in order. */
  function RootIds(s: seq<Comment>, ids: set<Id>): (r: seq<Id>)
    ensures forall y :: y in r <==> exists i :: 0 <= i < |s| && s[i].id == y && !Attached(s[i], ids)
  {
    if |s| == 0 then []
    else
      var n := |s| - 1;
      var r0 := RootIds(s[..n], ids);
      assert forall i :: 0 <= i < n ==> s[..n][i] == s[i];
      r0 + if Attached(s[n], ids) then [] else [s[n].id]
  }

  /** Every comment's node, with the replies the second pass gives it. */
  ghost function RepliesMap(cs: seq<Comment>): map<Id, seq<Id>> {
    map p | p in IdSet(cs) :: ChildIds(cs, IdSet(cs), p)
  }

  /** `commentsMap` after the first pass over `s`: a later comment with the same id overwrites. */
  function LastById(s: seq<Comment>): map<Id, Comment> {
    if |s| == 0 then map[] else LastById(s[..|s| - 1])[s[|s| - 1].id := s[|s| - 1]]
  }

  /** The index holds every id, and for each the last comment that has it. */
  lemma LastByIdSpec(s: seq<Comment>)
    ensures LastById(s).Keys == IdSet(s)
    ensures forall i :: 0 <= i < |s| && (forall j :: i < j < |s| ==> s[j].id != s[i].id) ==> LastById(s)[s[i].id] == s[i]
  {
    LastByIdKeys(s);
    forall i | 0 <= i < |s| && (forall j :: i < j < |s| ==> s[j].id != s[i].id) ensures LastById(s)[s[i].id] == s[i] {
      LastByIdLast(s, i);
    }
  }

  lemma {:induction false} LastByIdKeys(s: seq<Comment>)
    ensures LastById(s).Keys == IdSet(s)
  {
    if |s| > 0 {
      var n := |s| - 1;
      LastByIdKeys(s[..n]);
      assert s == s[..n] + [s[n]];
      assert IdSet(s) == IdSet(s[..n]) + {s[n].id};
    }
  }

  lemma {:induction false} LastByIdLast(s: seq<Comment>, i: nat)
    requires i < |s| && forall j :: i < j < |s| ==> s[j].id != s[i].id
    ensures s[i].id in LastById(s) && LastById(s)[s[i].id] == s[i]
  {
    var n := |s| - 1;
    if i < n {
      assert s[..n][i] == s[i];
      assert forall j :: i < j < n ==> s[..n][j] == s[j];
      LastByIdLast(s[..n], i);
      assert s[n].id != s[i].id;
    }
  }

  lemma ChildIdsSnoc(s: seq<Comment>, c: Comment, ids: set<Id>, q: Id)
    ensures ChildIds(s + [c], ids, q) == ChildIds(s, ids, q) + if AttachedTo(c, ids, q) then [c.id] else []
  {
    assert (s + [c])[..|s|] == s;
  }

  lemma RootIdsSnoc(s: seq<Comment>, c: Comment, ids: set<Id>)
    ensures RootIds(s + [c], ids) == RootIds(s, ids) + if Attached(c, ids) then [] else [c.id]
  {
    assert (s + [c])[..|s|] == s;
  }

  /** The first `forEach`: one node per id, the last comment with it, with no replies yet. */
  method IndexComments(cs: seq<Comment>) returns (nodes: map<Id, Comment>, replies: map<Id, seq<Id>>)
    ensures nodes == LastById(cs)
    ensures replies.Keys == IdSet(cs) && forall p :: p in replies ==> replies[p] == []
  {
    nodes, replies := map[], map[];
    var i := 0;
    while i < |cs|
      invariant 0 <= i <= |cs|
      invariant nodes == LastById(cs[..i])
      invariant replies.Keys == IdSet(cs[..i])
      invariant forall p :: p in replies ==> replies[p] == []
    {
      assert cs[..i + 1] == cs[..i] + [cs[i]];
      assert IdSet(cs[..i + 1]) == IdSet(cs[..i]) + {cs[i].id};
      assert cs[..i + 1][..i] == cs[..i];
      nodes := nodes[cs[i].id := cs[i]];
      replies := replies[cs[i].id := []];
      i := i + 1;
    }
    assert cs[..i] == cs;
  }

  /**
   * `buildCommentTree`: after indexing, each comment's node is pushed onto its
   * parent's replies when it is attached, and onto the roots otherwise.
   */
  method BuildCommentTree(cs: seq<Comment>) returns (nodes: map<Id, Comment>, replies: map<Id, seq<Id>>, roots: seq<Id>)
    ensures nodes.Keys == IdSet(cs)
    ensures forall i :: 0 <= i < |cs| && (forall j :: i < j < |cs| ==> cs[j].id != cs[i].id) ==> nodes[cs[i].id] == cs[i]
    ensures replies == RepliesMap(cs)
    ensures roots == RootIds(cs, IdSet(cs))
  {
    ghost var ids := IdSet(cs);
    nodes, replies := IndexComments(cs);
    LastByIdSpec(cs);
    roots := [];
    var i := 0;
    assert cs[..0] == [];
    while i < |cs|
      invariant Building(cs, i, ids, replies, roots)
    {
      var c := cs[i];
      BuildStep(cs, i, ids, replies, roots);
      if c.parentId.Some? && c.parentId.value != "" && c.parentId.value in replies {
        var p := c.parentId.value;
        replies := replies[p := replies[p] + [c.id]];
      } else {
        roots := roots + [c.id];
      }
      i := i + 1;
    }
    BuildDone(cs, replies, roots);
  }

  /** `replies` holds, for every input id, the ids the comments of `s` pushed onto it. */
  ghost predicate Placed(s: seq<Comment>, ids: set<Id>, replies: map<Id, seq<Id>>) {
    replies.Keys == ids && forall p :: p in ids ==> replies[p] == ChildIds(s, ids, p)
  }

  /** The second pass after `i` comments: their nodes placed, the roots among them listed. */
  ghost predicate Building(cs: seq<Comment>, i: int, ids: set<Id>, replies: map<Id, seq<Id>>, roots: seq<Id>) {
    0 <= i <= |cs| && Placed(cs[..i], ids, replies) && roots == RootIds(cs[..i], ids)
  }

  /** One step of the second pass keeps `Placed`. */
  lemma PlaceStep(s: seq<Comment>, c: Comment, ids: set<Id>, replies: map<Id, seq<Id>>)
    requires Placed(s, ids, replies)
    ensures Attached(c, ids) ==> Placed(s + [c], ids, replies[c.parentId.value := replies[c.parentId.value] + [c.id]])
    ensures !Attached(c, ids) ==> Placed(s + [c], ids, replies)
  {
    forall q ensures ChildIds(s + [c], ids, q) == ChildIds(s, ids, q) + if AttachedTo(c, ids, q) then [c.id] else [] {
      ChildIdsSnoc(s, c, ids, q);
    }
  }

  /** The test of the second pass is `Attached`, and either branch places one more comment. */
  lemma BuildStep(cs: seq<Comment>, i: int, ids: set<Id>, replies: map<Id, seq<Id>>, roots: seq<Id>)
    requires Building(cs, i, ids, replies, roots) && i < |cs|
    ensures var c := cs[i];
            Attached(c, ids) <==> c.parentId.Some? && c.parentId.value != "" && c.parentId.value in replies
    ensures var c := cs[i];
            Attached(c, ids) ==> Building(cs, i + 1, ids, replies[c.parentId.value := replies[c.parentId.value] + [c.id]], roots)
    ensures var c := cs[i];
            !Attached(c, ids) ==> Building(cs, i + 1, ids, replies, roots + [c.id])
  {
    var c := cs[i];
    assert cs[..i + 1] == cs[..i] + [c];
    RootIdsSnoc(cs[..i], c, ids);
    PlaceStep(cs[..i], c, ids, replies);
  }

  /** After the whole input, the reply lists and roots are those of the tree's definition. */
  lemma BuildDone(cs: seq<Comment>, replies: map<Id, seq<Id>>, roots: seq<Id>)
    requires Building(cs, |cs|, IdSet(cs), replies, roots)
    ensures replies == RepliesMap(cs) && roots == RootIds(cs, IdSet(cs))
  {
    assert cs[..|cs|] == cs;
  }

  // ------------------------------------------------------------------ order

  /** Splitting the input splits every reply list the same way: lists keep input order. */
  lemma {:induction false} ChildIdsConcat(a: seq<Comment>, b: seq<Comment>, ids: set<Id>, p: Id)
    ensures ChildIds(a + b, ids, p) == ChildIds(a, ids, p) + ChildIds(b, ids, p)
    decreases |b|
  {
    if |b| > 0 {
      var n := |b| - 1;
      assert (a + b)[..|a| + n] == a + b[..n];
      ChildIdsConcat(a, b[..n], ids, p);
    } else {
      assert a + b == a;
    }
  }

  /** The same for the roots. */
  lemma {:induction false} RootIdsConcat(a: seq<Comment>, b: seq<Comment>, ids: set<Id>)
    ensures RootIds(a + b, ids) == RootIds(a, ids) + RootIds(b, ids)
    decreases |b|
  {
    if |b| > 0 {
      var n := |b| - 1;
      assert (a + b)[..|a| + n] == a + b[..n];
      RootIdsConcat(a, b[..n], ids);
    } else {
      assert a + b == a;
    }
  }

  /** A reply listed before its parent is still attached to it, because the index is built first. */
  lemma ReplyBeforeParent(t: int)
    ensures var cs := [Comment("r", "101", "admin", "re", t, Some("p"), map[]),
                       Comment("p", "101", "janka", "hi", t, None, map[])];
            RootIds(cs, IdSet(cs)) == ["p"] && RepliesMap(cs)["p"] == ["r"] && RepliesMap(cs)["r"] == []
  {
    var cs := [Comment("r", "101", "admin", "re", t, Some("p"), map[]),
               Comment("p", "101", "janka", "hi", t, None, map[])];
    var ids := {"r", "p"};
    assert IdSet(cs) == ids by {
      assert cs[0] in cs && cs[1] in cs;
    }
    assert cs[..1] == [cs[0]] && cs[..1][..0] == [];
    assert RootIds(cs[..1], ids) == [];
    assert ChildIds(cs[..1], ids, "p") == ["r"];
    assert ChildIds(cs[..1], ids, "r") == [];
  }

  // -------------------------------------------------------------- placement

  ghost predicate UniqueIds(cs: seq<Comment>) {
    forall i, j :: 0 <= i < j < |cs| ==> cs[i].id != cs[j].id
  }

  lemma {:induction false} ChildCount(s: seq<Comment>, ids: set<Id>, p: Id, k: nat)
    requires UniqueIds(s) && k < |s|
    ensures multiset(ChildIds(s, ids, p))[s[k].id] == if AttachedTo(s[k], ids, p) then 1 else 0
  {
    var n := |s| - 1;
    var x := s[k].id;
    var tail := if AttachedTo(s[n], ids, p) then [s[n].id] else [];
    assert ChildIds(s, ids, p) == ChildIds(s[..n], ids, p) + tail;
    assert multiset(ChildIds(s, ids, p)) == multiset(ChildIds(s[..n], ids, p)) + multiset(tail);
    if k < n {
      assert UniqueIds(s[..n]);
      assert s[..n][k] == s[k];
      ChildCount(s[..n], ids, p, k);
      assert s[n].id != x;
    } else {
      assert x !in ChildIds(s[..n], ids, p) by {
        forall i | 0 <= i < |s[..n]| ensures s[..n][i].id != x {
          assert s[..n][i] == s[i];
        }
      }
    }
  }

  lemma {:induction false} RootCount(s: seq<Comment>, ids: set<Id>, k: nat)
    requires UniqueIds(s) && k < |s|
    ensures multiset(RootIds(s, ids))[s[k].id] == if Attached(s[k], ids) then 0 else 1
  {
    var n := |s| - 1;
    var x := s[k].id;
    var tail := if Attached(s[n], ids) then [] else [s[n].id];
    assert RootIds(s, ids) == RootIds(s[..n], ids) + tail;
    assert multiset(RootIds(s, ids)) == multiset(RootIds(s[..n], ids)) + multiset(tail);
    if k < n {
      assert UniqueIds(s[..n]);
      assert s[..n][k] == s[k];
      RootCount(s[..n], ids, k);
      assert s[n].id != x;
    } else {
      assert x !in RootIds(s[..n], ids) by {
        forall i | 0 <= i < |s[..n]| ensures s[..n][i].id != x {
          assert s[..n][i] == s[i];
        }
      }
    }
  }

  /**
   * With unique ids each comment is placed exactly once: once among the roots
   * when it is not attached, else once in its parent's replies, and nowhere else.
   */
  lemma PlacedOnce(cs: seq<Comment>, k: nat, p: Id)
    requires UniqueIds(cs) && k < |cs|
    ensures multiset(RootIds(cs, IdSet(cs)))[cs[k].id] == if Attached(cs[k], IdSet(cs)) then 0 else 1
    ensures p in IdSet(cs) ==>
              multiset(RepliesMap(cs)[p])[cs[k].id] == if AttachedTo(cs[k], IdSet(cs), p) then 1 else 0
  {
    RootCount(cs, IdSet(cs), k);
    ChildCount(cs, IdSet(cs), p, k);
  }

  // ----------------------------------------------------------- reachability

  /** The nodes a recursive render reaches from the roots in at most `k` steps down `replies`. */
  ghost function Reach(roots: seq<Id>, replies: map<Id, seq<Id>>, k: nat): set<Id> {
    if k == 0 then set x | x in roots
    else
      var prev := Reach(roots, replies, k - 1);
      prev + set p, y | p in prev && p in replies && y in replies[p] :: y
  }

  lemma {:induction false} ReachMonotone(roots: seq<Id>, replies: map<Id, seq<Id>>, a: nat, b: nat)
    requires a <= b
    ensures Reach(roots, replies, a) <= Reach(roots, replies, b)
    decreases b - a
  {
    if a < b {
      ReachMonotone(roots, replies, a, b - 1);
    }
  }

  /**
   * Comments whose parents all lie within a set `c` (a `parentId` cycle is one)
   * are attached to each other and never reached from the roots.
   */
  lemma {:induction false} ParentClosedUnreachable(cs: seq<Comment>, c: set<Id>, k: nat)
    requires forall i :: 0 <= i < |cs| && cs[i].id in c ==> Attached(cs[i], IdSet(cs)) && cs[i].parentId.value in c
    ensures c !! Reach(RootIds(cs, IdSet(cs)), RepliesMap(cs), k)
  {
    if k == 0 {
      RootsOutside(cs, c);
    } else {
      ParentClosedUnreachable(cs, c, k - 1);
      RepliesOutside(cs, c, Reach(RootIds(cs, IdSet(cs)), RepliesMap(cs), k - 1));
    }
  }

  /** No root lies in a parent-closed set. */
  lemma RootsOutside(cs: seq<Comment>, c: set<Id>)
    requires forall i :: 0 <= i < |cs| && cs[i].id in c ==> Attached(cs[i], IdSet(cs)) && cs[i].parentId.value in c
    ensures c !! (set x | x in RootIds(cs, IdSet(cs)))
  {
    forall x | x in RootIds(cs, IdSet(cs)) ensures x !in c {
      var i :| 0 <= i < |cs| && cs[i].id == x && !Attached(cs[i], IdSet(cs));
    }
  }

  /** The replies of nodes outside a parent-closed set are outside it too. */
  lemma RepliesOutside(cs: seq<Comment>, c: set<Id>, prev: set<Id>)
    requires forall i :: 0 <= i < |cs| && cs[i].id in c ==> Attached(cs[i], IdSet(cs)) && cs[i].parentId.value in c
    requires c !! prev
    ensures c !! (set p, y | p in prev && p in RepliesMap(cs) && y in RepliesMap(cs)[p] :: y)
  {
    forall p, y | p in prev && p in RepliesMap(cs) && y in RepliesMap(cs)[p] ensures y !in c {
      var i := ReplyOf(cs, p, y);
    }
  }

  /** Two comments replying to each other: neither becomes a root, and neither is reached. */
  lemma MutualRepliesUnreachable(t: int, k: nat)
    ensures var cs := [Comment("x", "101", "a", "1", t, Some("y"), map[]),
                       Comment("y", "101", "b", "2", t, Some("x"), map[])];
            RootIds(cs, IdSet(cs)) == [] && Reach(RootIds(cs, IdSet(cs)), RepliesMap(cs), k) == {}
  {
    var cs := [Comment("x", "101", "a", "1", t, Some("y"), map[]),
               Comment("y", "101", "b", "2", t, Some("x"), map[])];
    assert IdSet(cs) == {"x", "y"} by {
      assert cs[0] in cs && cs[1] in cs;
    }
    assert cs[..1] == [cs[0]] && cs[..1][..0] == [];
    assert RootIds(cs[..1], {"x", "y"}) == [];
    ParentClosedUnreachable(cs, {"x", "y"}, k);
    assert Reach(RootIds(cs, IdSet(cs)), RepliesMap(cs), k) <= IdSet(cs) by {
      ReachWithin(cs, k);
    }
  }

  /** A listed reply is some comment attached to the parent it is listed under. */
  lemma ReplyOf(cs: seq<Comment>, p: Id, y: Id) returns (i: nat)
    requires p in RepliesMap(cs) && y in RepliesMap(cs)[p]
    ensures i < |cs| && cs[i].id == y && AttachedTo(cs[i], IdSet(cs), p)
  {
    i :| 0 <= i < |cs| && cs[i].id == y && AttachedTo(cs[i], IdSet(cs), p);
  }

  /** Only input ids are ever reached. */
  lemma {:induction false} ReachWithin(cs: seq<Comment>, k: nat)
    ensures Reach(RootIds(cs, IdSet(cs)), RepliesMap(cs), k) <= IdSet(cs)
  {
    var ids := IdSet(cs);
    if k > 0 {
      ReachWithin(cs, k - 1);
      var prev := Reach(RootIds(cs, ids), RepliesMap(cs), k - 1);
      forall p, y | p in prev && p in RepliesMap(cs) && y in RepliesMap(cs)[p] ensures y in ids {
        var i := ReplyOf(cs, p, y);
        assert cs[i] in cs;
      }
    } else {
      forall y | y in RootIds(cs, ids) ensures y in ids {
        var i :| 0 <= i < |cs| && cs[i].id == y && !Attached(cs[i], ids);
        assert cs[i] in cs;
      }
    }
  }

  /**
   * Without parent cycles, witnessed by a rank that every attached comment's
   * parent undercuts, every comment is reached from the roots within its rank.
   */
  lemma {:induction false} AcyclicAllReachable(cs: seq<Comment>, rank: Id -> nat, i: nat)
    requires forall k :: 0 <= k < |cs| && Attached(cs[k], IdSet(cs)) ==> rank(cs[k].parentId.value) < rank(cs[k].id)
    requires i < |cs|
    ensures cs[i].id in Reach(RootIds(cs, IdSet(cs)), RepliesMap(cs), rank(cs[i].id))
    decreases rank(cs[i].id)
  {
    var ids := IdSet(cs);
    var roots, replies := RootIds(cs, ids), RepliesMap(cs);
    var x := cs[i].id;
    if !Attached(cs[i], ids) {
      RootOfUnattached(cs, i);
      ReachMonotone(roots, replies, 0, rank(x));
    } else {
      var p := cs[i].parentId.value;
      assert rank(p) < rank(x);
      var j := ParentIndex(cs, i);
      AcyclicAllReachable(cs, rank, j);
      ReplyOfAttached(cs, i);
      ReachChild(roots, replies, rank(p), rank(x), p, x);
    }
  }

  lemma ParentIndex(cs: seq<Comment>, i: nat) returns (j: nat)
    requires i < |cs| && Attached(cs[i], IdSet(cs))
    ensures j < |cs| && cs[j].id == cs[i].parentId.value
  {
    var c :| c in cs && c.id == cs[i].parentId.value;
    j :| 0 <= j < |cs| && cs[j] == c;
  }

  lemma RootOfUnattached(cs: seq<Comment>, i: nat)
    requires i < |cs| && !Attached(cs[i], IdSet(cs))
    ensures cs[i].id in Reach(RootIds(cs, IdSet(cs)), RepliesMap(cs), 0)
  {
  }

  lemma ReplyOfAttached(cs: seq<Comment>, i: nat)
    requires i < |cs| && Attached(cs[i], IdSet(cs))
    ensures cs[i].parentId.value in RepliesMap(cs) && cs[i].id in RepliesMap(cs)[cs[i].parentId.value]
  {
    assert AttachedTo(cs[i], IdSet(cs), cs[i].parentId.value);
  }

  /** A reply of a node reached within `a` steps is reached within any `b > a`. */
  lemma ReachChild(roots: seq<Id>, replies: map<Id, seq<Id>>, a: nat, b: nat, p: Id, y: Id)
    requires a < b && p in Reach(roots, replies, a) && p in replies && y in replies[p]
    ensures y in Reach(roots, replies, b)
  {
    assert y in Reach(roots, replies, a + 1);
    ReachMonotone(roots, replies, a + 1, b);
  }
}
