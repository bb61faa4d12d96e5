/** User management on the admin dashboard (pages/AdminDashboard.tsx): the
    reducer behind the row actions and the search box. */
module AdminUsers {
  import opened Wrappers
  import opened Text
  import opened Records
  import Lists

  /** The list the dashboard starts from. */
  const InitialUsers: seq<User> := [
    User("u1", "Jean Dupont", "jean@example.com", USER, ACTIVE, 150, true, false, None, "JEAN1", None),
    User("u2", "Marie Curie", "marie@example.com", USER, ACTIVE, 500, true, true, None, "MARIE2", None),
    User("u3", "Spammer Bot", "bot@spam.com", USER, BANNED, 0, false, false, None, "SPAM3", None),
    User("u4", "Admin User", "admin@lemondeavous.com", SUPER_ADMIN, ACTIVE, 999999, true, true, None, "ADMIN", None)
  ]

  datatype UserAction = BAN | UNBAN | VIP | DELETE

  const VipCredits: int := 999999

  /** What an action does to the user it targets. DELETE is a soft delete
      that marks the user SUSPENDED. */
  function Apply(u: User, action: UserAction): User {
    match action
    case BAN => u.(status := BANNED)
    case UNBAN => u.(status := ACTIVE)
    case VIP => u.(hasLifetimeAccess := Some(true), credits := VipCredits)
    case DELETE => u.(status := SUSPENDED)
  }

  /** The `map` step: every user with the id gets the action. */
  function Updated(users: seq<User>, userId: string, action: UserAction): (r: seq<User>)
    ensures |r| == |users|
    ensures forall i :: 0 <= i < |users| ==>
      r[i] == if users[i].id == userId then Apply(users[i], action) else users[i]
  {
    seq(|users|, i requires 0 <= i < |users| =>
      if users[i].id == userId then Apply(users[i], action) else users[i])
  }

  /** `handleUserAction(userId, action)`: the `map`, then the `filter`
      that, for a DELETE, drops every SUSPENDED user. */
  function HandleUserAction(users: seq<User>, userId: string, action: UserAction): seq<User> {
    Lists.Filter(Updated(users, userId, action), (u: User) => action != DELETE || u.status != SUSPENDED)
  }

  /** BAN, UNBAN and VIP keep the list's length and order and change only
      the users with the given id: BAN and UNBAN only their status, VIP only
      their credits and lifetime access. */
  lemma NonDeleteSpec(users: seq<User>, userId: string, action: UserAction)
    requires action != DELETE
    ensures var r := HandleUserAction(users, userId, action);
      && |r| == |users|
      && (forall i :: 0 <= i < |users| && users[i].id != userId ==> r[i] == users[i])
      && (forall i :: 0 <= i < |users| && users[i].id == userId ==>
            && r[i].id == users[i].id
            && (action == BAN ==> r[i] == users[i].(status := BANNED))
            && (action == UNBAN ==> r[i] == users[i].(status := ACTIVE))
            && (action == VIP ==> r[i].status == users[i].status && r[i].credits == 999999
                                  && r[i].hasLifetimeAccess == Some(true)
                                  && r[i] == users[i].(credits := 999999, hasLifetimeAccess := Some(true))))
  {
    var up := Updated(users, userId, action);
    Lists.FilterKeepsAll(up, (u: User) => action != DELETE || u.status != SUSPENDED);
  }

  /** The users without the given id, in order: the reference for DELETE. */
  function Without(users: seq<User>, userId: string): seq<User> {
    Lists.Filter(users, (u: User) => u.id != userId)
  }

  predicate NoSuspended(users: seq<User>) {
    forall i :: 0 <= i < |users| ==> users[i].status != SUSPENDED
  }

  /** When nobody is suspended beforehand, DELETE removes exactly the users
      with the given id and keeps the rest in order. */
  lemma {:induction false} DeleteRemovesTarget(users: seq<User>, userId: string)
    requires NoSuspended(users)
    ensures HandleUserAction(users, userId, DELETE) == Without(users, userId)
    decreases |users|
  {
    if |users| > 0 {
      var up := Updated(users, userId, DELETE);
      assert up[1..] == Updated(users[1..], userId, DELETE);
      DeleteRemovesTarget(users[1..], userId);
    }
  }

  /** DELETE drops every user already SUSPENDED, not only the target: it
      keeps, in order, exactly the users that are neither the target nor
      suspended. */
  lemma {:induction false} DeleteDropsSuspended(users: seq<User>, userId: string)
    ensures HandleUserAction(users, userId, DELETE)
         == Lists.Filter(users, (u: User) => u.id != userId && u.status != SUSPENDED)
    decreases |users|
  {
    if |users| > 0 {
      var up := Updated(users, userId, DELETE);
      assert up[1..] == Updated(users[1..], userId, DELETE);
      DeleteDropsSuspended(users[1..], userId);
    }
  }

  /** No action ever leaves a suspended user behind. */
  lemma PreservesNoSuspended(users: seq<User>, userId: string, action: UserAction)
    requires NoSuspended(users)
    ensures NoSuspended(HandleUserAction(users, userId, action))
  {
    var r := HandleUserAction(users, userId, action);
    forall i | 0 <= i < |r|
      ensures r[i].status != SUSPENDED
    {
      var j :| 0 <= j < |users| && Updated(users, userId, action)[j] == r[i];
    }
  }

  /** The list starts without suspended users, so along every sequence of
      actions DELETE removes exactly its target. */
  lemma InitialNoSuspended()
    ensures NoSuspended(InitialUsers)
  {
  }

  /** Whether a user matches the search box: the lower-cased name or email
      contains the lower-cased term. */
  predicate Matches(u: User, term: string) {
    Includes(ToLower(u.name), ToLower(term)) || Includes(ToLower(u.email), ToLower(term))
  }

  /** `filteredUsers`. */
  function FilterUsers(users: seq<User>, term: string): (r: seq<User>)
    ensures forall i :: 0 <= i < |r| ==> r[i] in users && Matches(r[i], term)
    ensures forall i :: 0 <= i < |users| && Matches(users[i], term) ==> users[i] in r
  {
    Lists.Filter(users, u => Matches(u, term))
  }

  /** An empty search keeps the whole list. */
  lemma EmptyTermKeepsAll(users: seq<User>)
    ensures FilterUsers(users, "") == users
  {
    forall i | 0 <= i < |users|
      ensures Matches(users[i], "")
    {
      EveryStringIncludesEmpty(ToLower(users[i].name));
    }
    Lists.FilterKeepsAll(users, u => Matches(u, ""));
  }

  /** The search keeps users in their original order: the result is the
      subsequence of the list at exactly the matching positions. */
  lemma FilterUsersOrder(users: seq<User>, term: string) returns (idx: seq<nat>)
    ensures Lists.PositionsOf(users, u => Matches(u, term), FilterUsers(users, term), idx)
  {
    idx := Lists.FilterPositions(users, u => Matches(u, term));
  }

  /** The search is blind to case in the term. */
  lemma TermCaseIgnored(users: seq<User>, t1: string, t2: string)
    requires ToLower(t1) == ToLower(t2)
    ensures FilterUsers(users, t1) == FilterUsers(users, t2)
  {
    Lists.FilterCongruent(users, u => Matches(u, t1), u => Matches(u, t2));
  }
}
