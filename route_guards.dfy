/** The two route guards: a protected route sends a signed-out visitor to the login
    page, remembering where they were; a guest-only route (login, sign-up) sends a
    signed-in visitor back to the remembered page, or home. */
module RouteGuards {
  import opened Common

  const LoginPath := "/login"
  const HomePath := "/"

  /** A router location; `state` is the navigation state, here only ever `{ from }`. */
  datatype RouterLocation = RouterLocation(pathname: string, search: string, hash: string, state: Option<NavState>)

  datatype NavState = NavState(from: Option<RouterLocation>)

  /** What a guard renders: its children, or a `<Navigate>` with its target, state and replace flag. */
  datatype GuardResult = Render | Redirect(to: string, state: Option<NavState>, replace: bool)

  /** `ProtectedRoute`. */
  function ProtectedRoute(isAuthenticated: bool, location: RouterLocation): (r: GuardResult)
    ensures isAuthenticated <==> r.Render?
    ensures !isAuthenticated ==> r == Redirect(LoginPath, Some(NavState(Some(location))), true)
  {
    if !isAuthenticated then Redirect(LoginPath, Some(NavState(Some(location))), true) else Render
  }

  /** `location.state?.from?.pathname || '/'`. */
  function ReturnPath(location: RouterLocation): (p: string)
    ensures p != ""
    ensures location.state.Some? && location.state.value.from.Some? && location.state.value.from.value.pathname != ""
      ==> p == location.state.value.from.value.pathname
    ensures location.state.None? || location.state.value.from.None? ==> p == HomePath
  {
    if location.state.Some? && location.state.value.from.Some? && location.state.value.from.value.pathname != "" then
      location.state.value.from.value.pathname
    else HomePath
  }

  /** `GuestRoute`. */
  function GuestRoute(isAuthenticated: bool, location: RouterLocation): (r: GuardResult)
    ensures !isAuthenticated <==> r.Render?
    ensures isAuthenticated ==> r == Redirect(ReturnPath(location), None, true)
  {
    if isAuthenticated then Redirect(ReturnPath(location), None, true) else Render
  }

  /** The location the login page is shown at after a guard's redirect. */
  function Arrive(r: GuardResult): RouterLocation
    requires r.Redirect?
  {
    RouterLocation(r.to, "", "", r.state)
  }

  /** A signed-out visit to a protected page lands on the login page; once signed in there, the guest
      guard sends the visitor back to the page's path (home for an empty path). Both redirects replace
      the history entry. */
  lemma LoginRoundTrip(location: RouterLocation)
    ensures ProtectedRoute(false, location).Redirect?
    ensures Arrive(ProtectedRoute(false, location)).pathname == LoginPath
    ensures GuestRoute(true, Arrive(ProtectedRoute(false, location)))
      == Redirect(if location.pathname != "" then location.pathname else HomePath, None, true)
  {
  }

  /** Only the path survives the round trip: the query and fragment of the remembered page are dropped. */
  lemma RoundTripDropsQuery(pathname: string, search: string)
    requires pathname != "" && search != ""
    ensures GuestRoute(true, Arrive(ProtectedRoute(false, RouterLocation(pathname, search, "", None)))).to
      != pathname + search
  {
    assert |pathname + search| > |pathname|;
  }

  /** Without a remembered page a signed-in visitor to a guest page goes home. */
  lemma GuestWithoutOriginGoesHome(pathname: string)
    ensures GuestRoute(true, RouterLocation(pathname, "", "", None)) == Redirect(HomePath, None, true)
  {
  }

  /** Whatever the session, exactly one guard lets the visitor through. */
  lemma GuardsAreComplementary(isAuthenticated: bool, location: RouterLocation)
    ensures ProtectedRoute(isAuthenticated, location).Render? != GuestRoute(isAuthenticated, location).Render?
  {
  }
}
