/**
 * The reaction toggle shared by the in-memory store (src/api.ts) and the
 * optimistic update in src/Lightbox.tsx: in the reactor list of one emoji,
 * `indexOf` the user, then `splice` that one position out or `push` the user.
 */
module Reactions {
  import opened Common
  import opened Model

  /** One toggle of `u` in a reactor list: its first occurrence is spliced out, or it is pushed. */
  function ToggleUser(users: seq<UserId>, u: UserId): seq<UserId> {
    var i := IndexOf(users, u);
    if i > -1 then users[..i] + users[i + 1..] else users + [u]
  }

  /** A toggle changes only how often `u` occurs: one fewer when present, once when absent. */
  lemma ToggleUserCounts(users: seq<UserId>, u: UserId, v: UserId)
    ensures multiset(ToggleUser(users, u))[v] ==
            if v != u then multiset(users)[v]
            else if u in users then multiset(users)[u] - 1
            else 1
  {
    var i := IndexOf(users, u);
    if i > -1 {
      assert users == users[..i] + [users[i]] + users[i + 1..];
      assert multiset(users) == multiset(users[..i]) + multiset{u} + multiset(users[i + 1..]);
    }
  }

  /** In a list holding `u` at most once, a toggle flips whether `u` is there and keeps it at most once. */
  lemma ToggleUserFlips(users: seq<UserId>, u: UserId)
    requires multiset(users)[u] <= 1
    ensures (u in ToggleUser(users, u)) <==> u !in users
    ensures multiset(ToggleUser(users, u))[u] <= 1
  {
    ToggleUserCounts(users, u, u);
  }

  /** Toggling an absent user twice gives back the very same list. */
  lemma ToggleUserTwiceAbsent(users: seq<UserId>, u: UserId)
    requires u !in users
    ensures ToggleUser(ToggleUser(users, u), u) == users
  {
    var once := users + [u];
    assert IndexOf(once, u) == |users| by {
      assert once[..|users|] == users;
    }
    assert once[..|users|] == users;
  }

  /** Toggling twice gives back the same users, though a present user moves to the end. */
  lemma ToggleUserTwice(users: seq<UserId>, u: UserId)
    requires multiset(users)[u] <= 1
    ensures multiset(ToggleUser(ToggleUser(users, u), u)) == multiset(users)
  {
    var once := ToggleUser(users, u);
    ToggleUserFlips(users, u);
    forall v ensures multiset(ToggleUser(once, u))[v] == multiset(users)[v] {
      ToggleUserCounts(users, u, v);
      ToggleUserCounts(once, u, v);
    }
  }

  /** A toggle always changes the list: it is one element shorter or one longer. */
  lemma ToggleUserChanges(users: seq<UserId>, u: UserId)
    ensures |ToggleUser(users, u)| == if u in users then |users| - 1 else |users| + 1
    ensures ToggleUser(users, u) != users
  {
  }

  /** `reactions[emoji] || []`. */
  function ReactorsOf(rs: Reactions, e: Emoji): seq<UserId> {
    if e in rs then rs[e] else []
  }

  predicate HasReacted(rs: Reactions, e: Emoji, u: UserId) {
    e in rs && u in rs[e]
  }

  /**
   * The toggle on a reactions map: a missing emoji gets a list first, and that
   * list stays (possibly empty) after a later toggle takes the user out again.
   */
  function ToggleReaction(rs: Reactions, emoji: Emoji, u: UserId): (r: Reactions)
    ensures r.Keys == rs.Keys + {emoji}
    ensures forall e :: e in rs && e != emoji ==> r[e] == rs[e]
    ensures r[emoji] == ToggleUser(ReactorsOf(rs, emoji), u)
  {
    rs[emoji := ToggleUser(ReactorsOf(rs, emoji), u)]
  }

  /** Only the (emoji, user) pair toggled changes membership, and it flips. */
  lemma ToggleReactionFlips(rs: Reactions, emoji: Emoji, u: UserId)
    requires multiset(ReactorsOf(rs, emoji))[u] <= 1
    ensures HasReacted(ToggleReaction(rs, emoji, u), emoji, u) <==> !HasReacted(rs, emoji, u)
    ensures forall e, v :: (e != emoji || v != u) ==>
              (HasReacted(ToggleReaction(rs, emoji, u), e, v) <==> HasReacted(rs, e, v))
  {
    ToggleUserFlips(ReactorsOf(rs, emoji), u);
    forall v | v != u ensures v in ToggleUser(ReactorsOf(rs, emoji), u) <==> v in ReactorsOf(rs, emoji) {
      ToggleUserCounts(ReactorsOf(rs, emoji), u, v);
    }
  }

  /**
   * Two identical toggles restore every membership. The map itself comes back
   * exactly, except that an emoji that was missing is left with an empty list.
   */
  lemma ToggleReactionTwice(rs: Reactions, emoji: Emoji, u: UserId)
    requires multiset(ReactorsOf(rs, emoji))[u] <= 1
    ensures forall e, v :: HasReacted(ToggleReaction(ToggleReaction(rs, emoji, u), emoji, u), e, v)
                           <==> HasReacted(rs, e, v)
    ensures emoji !in rs ==> ToggleReaction(ToggleReaction(rs, emoji, u), emoji, u) == rs[emoji := []]
    ensures u !in ReactorsOf(rs, emoji) && emoji in rs ==>
              ToggleReaction(ToggleReaction(rs, emoji, u), emoji, u) == rs
  {
    TwiceRestoresMembers(rs, emoji, u);
    if u !in ReactorsOf(rs, emoji) {
      TwiceRestoresAbsent(rs, emoji, u);
    }
  }

  lemma TwiceRestoresMembers(rs: Reactions, emoji: Emoji, u: UserId)
    requires multiset(ReactorsOf(rs, emoji))[u] <= 1
    ensures forall e, v :: HasReacted(ToggleReaction(ToggleReaction(rs, emoji, u), emoji, u), e, v)
                           <==> HasReacted(rs, e, v)
  {
    var r0 := ReactorsOf(rs, emoji);
    var once := ToggleReaction(rs, emoji, u);
    var twice := ToggleReaction(once, emoji, u);
    assert ReactorsOf(once, emoji) == ToggleUser(r0, u);
    assert twice[emoji] == ToggleUser(ToggleUser(r0, u), u);
    ToggleUserTwice(r0, u);
    forall e, v ensures HasReacted(twice, e, v) <==> HasReacted(rs, e, v) {
      if e == emoji {
        assert v in twice[emoji] <==> v in multiset(r0);
      }
    }
  }

  lemma TwiceRestoresAbsent(rs: Reactions, emoji: Emoji, u: UserId)
    requires u !in ReactorsOf(rs, emoji)
    ensures emoji !in rs ==> ToggleReaction(ToggleReaction(rs, emoji, u), emoji, u) == rs[emoji := []]
    ensures emoji in rs ==> ToggleReaction(ToggleReaction(rs, emoji, u), emoji, u) == rs
  {
    var r0 := ReactorsOf(rs, emoji);
    var once := ToggleReaction(rs, emoji, u);
    var twice := ToggleReaction(once, emoji, u);
    assert ReactorsOf(once, emoji) == ToggleUser(r0, u);
    ToggleUserTwiceAbsent(r0, u);
    assert twice[emoji] == r0;
    if emoji in rs {
      assert twice == rs;
    } else {
      assert twice == rs[emoji := []];
    }
  }
}
