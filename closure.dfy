/**
 * What a cascading delete must remove: the comment itself and every comment
 * reachable from it through `parentId` links, whatever shape those links take
 * (a forest, or cycles nobody prevented at write time). Both stores compute it
 * by breadth-first search; this module states the target they must hit.
 */
module ReplyClosure {
  import opened Common
  import opened Model

  /** All a cascade needs of a comment row: its id and its parent's id. */
  datatype Link = Link(id: Id, parentId: Option<Id>)

  /** `s` holds every comment whose parent it holds. */
  ghost predicate Closed(ls: seq<Link>, s: set<Id>) {
    forall l :: l in ls && l.parentId.Some? && l.parentId.value in s ==> l.id in s
  }

  /** Every closed set holding `root` holds all of `s`: nothing in `s` could be spared. */
  ghost predicate Forced(ls: seq<Link>, root: Id, s: set<Id>) {
    forall t: set<Id> :: root in t && Closed(ls, t) ==> s <= t
  }

  /** `s` is the least set that holds `root` and is closed under replies. */
  ghost predicate IsClosure(ls: seq<Link>, root: Id, s: set<Id>) {
    root in s && Closed(ls, s) && Forced(ls, root, s)
  }

  /** The search's frontier invariant: a reply to a member of `s` is in `s` unless its parent still waits in `queue`. */
  ghost predicate ClosedBut(ls: seq<Link>, s: set<Id>, queue: seq<Id>) {
    forall l :: l in ls && l.parentId.Some? && l.parentId.value in s ==> l.id in s || l.parentId.value in queue
  }

  function Ids(ls: seq<Link>): set<Id> {
    set l | l in ls :: l.id
  }

  /** The direct replies to `parent`, in table order (`WHERE parent_id = ?`, `filter(c => c.parentId === id)`). */
  function RepliesTo(ls: seq<Link>, parent: Id): (r: seq<Link>)
    ensures forall l :: l in r <==> l in ls && l.parentId == Some(parent)
  {
    FilterMembers(ls, (l: Link) => l.parentId == Some(parent));
    Filter(ls, (l: Link) => l.parentId == Some(parent))
  }

  /** The ids a list holds. */
  function Members(xs: seq<Id>): set<Id> {
    set x | x in xs
  }

  lemma MembersConcat(xs: seq<Id>, ys: seq<Id>)
    ensures Members(xs + ys) == Members(xs) + Members(ys)
  {
  }

  /**
   * The invariant of either search: `s` holds the root and only ids of the
   * links, the queue holds only members of `s`, every member of `s` belongs
   * to the closure, and a reply to a member is in `s` unless its parent is
   * still queued.
   */
  ghost predicate Searching(ls: seq<Link>, root: Id, s: set<Id>, queue: seq<Id>) {
    && root in s && s <= Ids(ls) + {root}
    && (forall x :: x in queue ==> x in s)
    && ClosedBut(ls, s, queue)
    && Forced(ls, root, s)
  }

  lemma SearchStart(ls: seq<Link>, root: Id)
    ensures Searching(ls, root, {root}, [root])
  {
  }

  /**
   * One round of either search: the head of the queue leaves it, and
   * `added`, its replies (`children`) not seen before, join both the set and
   * the queue. The unsearched ids shrink, or else the queue does.
   */
  lemma SearchStep(ls: seq<Link>, root: Id, s: set<Id>, queue: seq<Id>, children: seq<Link>, added: seq<Id>)
    requires Searching(ls, root, s, queue) && |queue| > 0
    requires forall l :: l in children <==> l in ls && l.parentId == Some(queue[0])
    requires forall x :: x in added ==> x !in s && exists l :: l in children && l.id == x
    requires forall l :: l in children ==> l.id in s + Members(added)
    ensures Searching(ls, root, s + Members(added), queue[1..] + added)
    ensures added == [] ==> s + Members(added) == s
    ensures added != [] ==> (Ids(ls) + {root}) - (s + Members(added)) < (Ids(ls) + {root}) - s
  {
    var current, rest := queue[0], queue[1..];
    assert queue == [current] + rest;
    var s' := s + Members(added);
    forall l | l in ls && l.parentId.Some? && l.parentId.value in s' ensures l.id in s' || l.parentId.value in rest + added {
      if l.parentId.value in added {
        assert l.parentId.value in rest + added;
      } else if l.parentId.value != current && l.id !in s {
        assert l.parentId.value in rest + added;
      }
    }
    forall t: set<Id> | root in t && Closed(ls, t) ensures s' <= t {
      forall x | x in added ensures x in t {
        var l :| l in children && l.id == x;
      }
    }
    forall x | x in added ensures x in Ids(ls) {
      var l :| l in children && l.id == x;
    }
    if added != [] {
      assert added[0] in s' - s;
    }
  }

  /** A search whose queue ran empty has found the closure. */
  lemma SearchDone(ls: seq<Link>, root: Id, s: set<Id>)
    requires Searching(ls, root, s, [])
    ensures IsClosure(ls, root, s)
  {
  }

  /** The closure is determined by the links and the root. */
  lemma ClosureUnique(ls: seq<Link>, root: Id, s1: set<Id>, s2: set<Id>)
    requires IsClosure(ls, root, s1) && IsClosure(ls, root, s2)
    ensures s1 == s2
  {
  }

  /** Nothing is deleted without cause: every member but the root replies to another member. */
  lemma ClosureSupported(ls: seq<Link>, root: Id, s: set<Id>, x: Id)
    requires IsClosure(ls, root, s)
    requires x in s && x != root
    ensures exists l :: l in ls && l.id == x && l.parentId.Some? && l.parentId.value in s
  {
    if !exists l :: l in ls && l.id == x && l.parentId.Some? && l.parentId.value in s {
      var t := s - {x};
      assert Closed(ls, t);
      assert false;
    }
  }

  /** The closure holds only the root and ids that occur among the links. */
  lemma ClosureWithin(ls: seq<Link>, root: Id, s: set<Id>)
    requires IsClosure(ls, root, s)
    ensures s <= Ids(ls) + {root}
  {
    var t := s * (Ids(ls) + {root});
    assert Closed(ls, t) by {
      forall l | l in ls && l.parentId.Some? && l.parentId.value in t ensures l.id in t {
        assert l.id in Ids(ls);
      }
    }
  }

  /** A root that nothing replies to is its own closure, whether or not it exists. */
  lemma ClosureOfUnreplied(ls: seq<Link>, root: Id)
    requires forall l :: l in ls ==> l.parentId != Some(root)
    ensures IsClosure(ls, root, {root})
  {
  }

  /** The chain A <- B <- C <- D: deleting A takes all four, deleting C takes C and D only. */
  lemma ChainExample()
    ensures var ls := [Link("A", None), Link("B", Some("A")), Link("C", Some("B")), Link("D", Some("C"))];
            IsClosure(ls, "A", {"A", "B", "C", "D"}) && IsClosure(ls, "C", {"C", "D"})
  {
    var ls := [Link("A", None), Link("B", Some("A")), Link("C", Some("B")), Link("D", Some("C"))];
    forall t: set<Id> | "A" in t && Closed(ls, t) ensures {"A", "B", "C", "D"} <= t {
      assert ls[1] in ls && ls[2] in ls && ls[3] in ls;
    }
    forall t: set<Id> | "C" in t && Closed(ls, t) ensures {"C", "D"} <= t {
      assert ls[3] in ls;
    }
    assert Closed(ls, {"C", "D"}) by {
      forall l | l in ls && l.parentId.Some? && l.parentId.value in {"C", "D"} ensures l.id in {"C", "D"} {
        assert l == ls[0] || l == ls[1] || l == ls[2] || l == ls[3];
      }
    }
  }

  /** Two comments replying to each other: either one takes both with it. */
  lemma CycleExample()
    ensures var ls := [Link("X", Some("Y")), Link("Y", Some("X"))];
            IsClosure(ls, "X", {"X", "Y"}) && IsClosure(ls, "Y", {"X", "Y"})
  {
    var ls := [Link("X", Some("Y")), Link("Y", Some("X"))];
    forall t: set<Id> | "X" in t && Closed(ls, t) ensures "Y" in t {
      assert ls[1] in ls;
    }
    forall t: set<Id> | "Y" in t && Closed(ls, t) ensures "X" in t {
      assert ls[0] in ls;
    }
  }
}
