/**
 * The two optimistic handlers of src/UserList.tsx. Each takes a snapshot of
 * `users`, writes the optimistic list, sends the request, and puts the
 * snapshot back when the request fails (`fails`). The request itself is
 * returned so that what is sent can be compared with what is shown.
 */
module UserList {
  import opened Common
  import opened Model
  import MockApi

  /** The update given to `setUsers` by `handleToggleBlock`: each user with the id has its own flag negated. */
  function FlipBlocked(users: seq<User>, id: UserId): seq<User> {
    seq(|users|, i requires 0 <= i < |users| => if users[i].id == id then users[i].(isBlocked := !users[i].isBlocked) else users[i])
  }

  /** Only users with the id change, only in `isBlocked`, and their flag flips. */
  lemma FlipBlockedEffect(users: seq<User>, id: UserId)
    ensures var r := FlipBlocked(users, id);
            && |r| == |users|
            && (forall i :: 0 <= i < |users| ==> r[i] == users[i].(isBlocked := r[i].isBlocked))
            && (forall i :: 0 <= i < |users| ==> (r[i].isBlocked <==> if users[i].id == id then !users[i].isBlocked else users[i].isBlocked))
  {
  }

  /** Flipping twice gives back the list. */
  lemma FlipBlockedTwice(users: seq<User>, id: UserId)
    ensures FlipBlocked(FlipBlocked(users, id), id) == users
  {
  }

  /**
   * When the row clicked shows the state's flag for that id, the optimistic
   * list is what the store computes from the request that is sent.
   */
  lemma FlipMatchesRequest(users: seq<User>, target: User)
    requires forall u :: u in users && u.id == target.id ==> u.isBlocked == target.isBlocked
    ensures FlipBlocked(users, target.id) == MockApi.SetBlocked(users, target.id, !target.isBlocked)
  {
    var r := FlipBlocked(users, target.id);
    var s := MockApi.SetBlocked(users, target.id, !target.isBlocked);
    forall i | 0 <= i < |users| ensures r[i] == s[i] {
      assert users[i] in users;
    }
  }

  /** A row rendered from an older list can disagree: what is shown then differs from what is stored. */
  lemma StaleRowDisagrees(u: User)
    requires !u.isBlocked
    ensures FlipBlocked([u.(isBlocked := true)], u.id) != MockApi.SetBlocked([u.(isBlocked := true)], u.id, !u.isBlocked)
  {
    assert FlipBlocked([u.(isBlocked := true)], u.id)[0].isBlocked == false;
  }

  /** Either request, as sent. */
  datatype Request = SetStatus(userId: UserId, isBlocked: bool) | SetUserCategory(userId: UserId, category: Category)

  /** The component's `users` state. */
  class UserListState {
    var users: seq<User>

    constructor (users: seq<User>)
      ensures this.users == users
    {
      this.users := users;
    }

    /**
     * `handleToggleBlock`: the current user's own row does nothing. Otherwise
     * the target's flag flips in the list, the negation of the row's flag is
     * sent, and a failure restores the snapshot exactly.
     */
    method HandleToggleBlock(currentUser: User, target: User, fails: bool) returns (sent: Option<Request>)
      modifies this
      ensures target.id == currentUser.id ==> sent == None && users == old(users)
      ensures target.id != currentUser.id ==> sent == Some(SetStatus(target.id, !target.isBlocked))
      ensures target.id != currentUser.id && !fails ==> users == FlipBlocked(old(users), target.id)
      ensures target.id != currentUser.id && fails ==> users == old(users)
    {
      if target.id == currentUser.id {
        return None;
      }
      var originalUsers := users;
      users := FlipBlocked(users, target.id);
      sent := Some(SetStatus(target.id, !target.isBlocked));
      if fails {
        users := originalUsers;
      }
    }

    /** `handleCategoryChange`: the user's category changes in the list, and a failure restores the snapshot. */
    method HandleCategoryChange(userId: UserId, newCategory: Category, fails: bool) returns (sent: Request)
      modifies this
      ensures sent == SetUserCategory(userId, newCategory)
      ensures !fails ==> users == MockApi.SetCategory(old(users), userId, newCategory)
      ensures fails ==> users == old(users)
    {
      var originalUsers := users;
      users := MockApi.SetCategory(users, userId, newCategory);
      sent := SetUserCategory(userId, newCategory);
      if fails {
        users := originalUsers;
      }
    }
  }
}
