/** The `PrivateRoute` guard that wraps the protected views, and how it
    composes with the auth provider's own children gate. */
module RouteGuard {
  import opened Wrappers
  import opened AuthContext

  const SignInPath := "/signin"

  /** What the guard renders. */
  datatype View<C> = Placeholder | Redirect(to: string) | Content(children: C)

  /** `PrivateRoute`: the placeholder while loading, a redirect to the
      sign-in view when there is no session (null or undefined), otherwise
      the wrapped children unchanged. */
  function PrivateRoute<S, C>(loading: bool, session: SessionSlot<S>, children: C): (v: View<C>)
    ensures v.Placeholder? <==> loading
    ensures v.Redirect? <==> !loading && !session.Present?
    ensures v.Redirect? ==> v.to == SignInPath
    ensures v.Content? <==> !loading && session.Present?
    ensures v.Content? ==> v.children == children
  {
    if loading then Placeholder
    else if !session.Present? then Redirect(SignInPath)
    else Content(children)
  }

  /** The guard's three states: loading, authenticated, unauthenticated. */
  datatype GuardState = Loading | Authenticated | Unauthenticated

  function GuardStateOf<S>(st: StoreState<S>): GuardState {
    if st.loading then Loading
    else if st.session.Present? then Authenticated
    else Unauthenticated
  }

  /** Each state's rendering: only `Authenticated` shows the protected view. */
  function RenderState<C>(state: GuardState, children: C): View<C> {
    match state
    case Loading => Placeholder
    case Authenticated => Content(children)
    case Unauthenticated => Redirect(SignInPath)
  }

  /** The guard follows the three-state machine over the store's values. */
  lemma PrivateRouteFollowsStates<S, C>(st: StoreState<S>, children: C)
    ensures PrivateRoute(st.loading, st.session, children) == RenderState(GuardStateOf(st), children)
  {
  }

  /** A protected page as mounted: the provider's gate around the guard.
      `None` means the provider renders nothing yet. */
  function ProtectedPage<S, C>(st: StoreState<S>, children: C): (page: Option<View<C>>)
    ensures page.None? <==> st.loading
    ensures page.Some? ==> page.value == PrivateRoute(st.loading, st.session, children)
  {
    if st.loading then None else Some(PrivateRoute(st.loading, st.session, children))
  }

  /** The guard sits below the provider, which holds its children back while
      loading, so the guard's placeholder is never shown. */
  lemma PlaceholderNeverShown<S, C>(st: StoreState<S>, children: C)
    ensures ProtectedPage(st, children) != Some(Placeholder)
  {
  }

  /** After a sequence of session callbacks a protected page shows its
      content exactly when some callback has arrived and the latest one
      delivered a session; it redirects to sign-in exactly when the latest
      delivered none. */
  lemma {:induction false} ProtectedAfterCallbacks<S, C>(deliveries: seq<Option<S>>, children: C)
    ensures ProtectedPage(Replay(deliveries), children) == Some(Content(children))
            <==> deliveries != [] && deliveries[|deliveries| - 1].Some?
    ensures ProtectedPage(Replay(deliveries), children) == Some(Redirect(SignInPath))
            <==> deliveries != [] && deliveries[|deliveries| - 1].None?
    ensures ProtectedPage(Replay(deliveries), children).None? <==> deliveries == []
  {
    ReplaySettles(deliveries);
  }
}
