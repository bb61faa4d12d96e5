/** The route guard (components/ProtectedRoute.tsx): what a guarded page
    shows for a given authentication state and optional role list. */
module Guard {
  import opened Wrappers
  import opened Records

  datatype Access =
    /** The loading spinner. */
    | Spinner
    /** Nothing is rendered and the app navigates to '/auth'. */
    | RedirectToAuth
    /** The access-denied panel. */
    | Denied
    /** The guarded page itself. */
    | Children

  function Decide(auth: AuthState, allowedRoles: Option<seq<Role>>): Access {
    if auth.isLoading then Spinner
    else if !auth.isAuthenticated || auth.user.None? then RedirectToAuth
    else if allowedRoles.Some? && auth.user.value.role !in allowedRoles.value then Denied
    else Children
  }

  /** While loading, the spinner is shown whatever else holds. */
  lemma LoadingShowsSpinner(auth: AuthState, allowedRoles: Option<seq<Role>>)
    ensures Decide(auth, allowedRoles) == Spinner <==> auth.isLoading
  {
  }

  lemma RedirectIff(auth: AuthState, allowedRoles: Option<seq<Role>>)
    ensures Decide(auth, allowedRoles) == RedirectToAuth <==>
      !auth.isLoading && (!auth.isAuthenticated || auth.user.None?)
  {
  }

  lemma DeniedIff(auth: AuthState, allowedRoles: Option<seq<Role>>)
    ensures Decide(auth, allowedRoles) == Denied <==>
      && !auth.isLoading && auth.isAuthenticated && auth.user.Some?
      && allowedRoles.Some? && auth.user.value.role !in allowedRoles.value
  {
  }

  /** The page is shown exactly to a loaded, authenticated user whose role
      is listed, or to any such user when there is no list. */
  lemma ChildrenIff(auth: AuthState, allowedRoles: Option<seq<Role>>)
    ensures Decide(auth, allowedRoles) == Children <==>
      && !auth.isLoading && auth.isAuthenticated && auth.user.Some?
      && (allowedRoles.None? || auth.user.value.role in allowedRoles.value)
  {
  }

  /** An empty role list, unlike a missing one, denies everybody. */
  lemma EmptyListDeniesAll(auth: AuthState)
    requires !auth.isLoading && auth.isAuthenticated && auth.user.Some?
    ensures Decide(auth, Some([])) == Denied
    ensures Decide(auth, None) == Children
  {
  }
}
