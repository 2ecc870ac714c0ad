/** The root page: it renders nothing and only sends the visitor on by role. */
module HomePage {
  import opened Common
  import opened Sessions
  import Middleware

  /** `redirect(path)`, or the TypeError raised by reading `role` of a missing `session.user`. */
  datatype Outcome = RedirectTo(target: string) | RenderError

  function Home(session: Option<Session>): (r: Outcome)
    ensures r.RenderError? <==> session.Some? && session.value.user.None?
  {
    if session.None? then RedirectTo("/login")
    else if session.value.user.None? then RenderError
    else
      match session.value.user.value.role
      case Some("manager") => RedirectTo("/manager/dashboard")
      case Some("washer") => RedirectTo("/washer/washes")
      case Some("driver") => RedirectTo("/driver/dashboard")
      case _ => RedirectTo("/login")
  }

  /**
   * The page and the gate agree: for a signed-in user the page sends them
   * exactly where the gate sends a request for `/` carrying the same role,
   * and with no session both go to the login page.
   */
  lemma HomeAgreesWithGate(session: Option<Session>, token: Option<Token>)
    requires session.None? <==> token.None?
    requires session.Some? ==> session.value.user.Some? && session.value.user.value.role == token.value.role
    ensures Home(session) == RedirectTo(Middleware.Middleware(token, "/").target)
  {
  }

  /** Every session ends in a redirect to the login page or to a role's home, and that home lets the user in. */
  lemma HomeAlwaysRedirects(session: Option<Session>)
    requires session.Some? ==> session.value.user.Some?
    ensures Home(session).RedirectTo?
    ensures Home(session).target == Middleware.LoginPath
      || Middleware.Middleware(Some(Token(None, None, session.value.user.value.role, None)), Home(session).target)
         == Middleware.Pass
  {
    if session.Some? {
      var role := session.value.user.value.role;
      if Home(session).target != Middleware.LoginPath {
        var t := Token(None, None, role, None);
        HomeAgreesWithGate(session, Some(t));
        Middleware.MiddlewareSpec(Some(t), "/");
        Middleware.HomeIsReachable(t);
      }
    }
  }
}
