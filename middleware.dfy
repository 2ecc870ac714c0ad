/**
 * The request gate that runs before the protected pages: it reads the
 * signed-in user's role from the JWT and either lets the request through or
 * redirects it. Targets are paths on the application's own origin.
 */
module Middleware {
  import opened Common
  import opened Text
  import opened Sessions

  datatype Decision = Pass | Redirect(target: string)

  const LoginPath := "/login"
  const ManagerHome := "/manager/dashboard"
  const WasherHome := "/washer/washes"
  const DriverHome := "/driver/dashboard"

  /** The wrapped `middleware` function: `token` is `req.nextauth.token`, `path` the pathname. */
  function Middleware(token: Option<Token>, path: string): (d: Decision)
    ensures d.Redirect? ==> d.target in {LoginPath, ManagerHome, WasherHome, DriverHome}
    ensures d.Pass? ==> token.Some? && path != "/"
  {
    if token.None? then Redirect(LoginPath)
    else
      var role := token.value.role;
      if path == "/" then
        if role == Some("manager") then Redirect(ManagerHome)
        else if role == Some("washer") then Redirect(WasherHome)
        else if role == Some("driver") then Redirect(DriverHome)
        else Redirect(LoginPath)
      else if StartsWith(path, "/manager") && role != Some("manager") then
        if role == Some("washer") then Redirect(WasherHome)
        else if role == Some("driver") then Redirect(DriverHome)
        else Redirect(LoginPath)
      else if StartsWith(path, "/washer") && role != Some("washer") then
        if role == Some("manager") then Redirect(ManagerHome)
        else if role == Some("driver") then Redirect(DriverHome)
        else Redirect(LoginPath)
      else if StartsWith(path, "/driver") && role != Some("driver") then
        if role == Some("manager") then Redirect(ManagerHome)
        else if role == Some("washer") then Redirect(WasherHome)
        else Redirect(LoginPath)
      else Pass
  }

  /** `config.matcher`: `/`, and `/manager`, `/washer`, `/driver` with any sub-path. */
  predicate Matched(path: string) {
    path == "/" || Section(path, "/manager") || Section(path, "/washer") || Section(path, "/driver")
  }

  /** `base/:path*`: the base itself or anything below it. */
  predicate Section(path: string, base: string) {
    path == base || StartsWith(path, base + "/")
  }

  // Reference description of the gate, written independently of its code.

  /** Where each role belongs; anything else belongs at the login page. */
  function HomeOf(role: Option<string>): string {
    match role
    case Some("manager") => ManagerHome
    case Some("washer") => WasherHome
    case Some("driver") => DriverHome
    case _ => LoginPath
  }

  /** The role a path prefix is reserved for, if any. */
  function Owner(path: string): Option<string> {
    if StartsWith(path, "/manager") then Some("manager")
    else if StartsWith(path, "/washer") then Some("washer")
    else if StartsWith(path, "/driver") then Some("driver")
    else None
  }

  /**
   * The gate, whole: no token goes to login; a token at `/`, or on a reserved
   * prefix that is not its own, goes to its role's home; everything else passes.
   */
  lemma MiddlewareSpec(token: Option<Token>, path: string)
    ensures token.None? ==> Middleware(token, path) == Redirect(LoginPath)
    ensures token.Some? ==>
      var role := token.value.role;
      Middleware(token, path) ==
        if path == "/" || (Owner(path).Some? && Owner(path) != role) then Redirect(HomeOf(role))
        else Pass
  {
    if token.Some? && path != "/" {
      PrefixesExclusive(path);
    }
  }

  /** No path starts with two of the reserved prefixes. */
  lemma PrefixesExclusive(path: string)
    ensures !(StartsWith(path, "/manager") && StartsWith(path, "/washer"))
    ensures !(StartsWith(path, "/manager") && StartsWith(path, "/driver"))
    ensures !(StartsWith(path, "/washer") && StartsWith(path, "/driver"))
  {
    if StartsWith(path, "/manager") { assert path[1] == 'm'; }
    if StartsWith(path, "/washer") { assert path[1] == 'w'; }
  }

  /** With no token every path, matched or not, is sent to the login page. */
  lemma NoTokenGoesToLogin(path: string)
    ensures Middleware(None, path) == Redirect(LoginPath)
  {
  }

  /** Each role's own home page is let through for that role. */
  lemma HomeIsReachable(t: Token)
    requires t.role in {Some("manager"), Some("washer"), Some("driver")}
    ensures Matched(HomeOf(t.role))
    ensures Middleware(Some(t), HomeOf(t.role)) == Pass
  {
    var home := HomeOf(t.role);
    if t.role == Some("manager") {
      assert home[..8] == "/manager";
      assert home[1] == 'm';
      assert StartsWith(home, "/manager" + "/");
    } else if t.role == Some("washer") {
      assert home[..7] == "/washer";
      assert home[1] == 'w';
      assert StartsWith(home, "/washer" + "/");
    } else {
      assert home[..7] == "/driver";
      assert home[1] == 'd';
      assert StartsWith(home, "/driver" + "/");
    }
  }

  /** The login page is not behind the gate. */
  lemma LoginNotMatched()
    ensures !Matched(LoginPath)
  {
    assert LoginPath[1] == 'l';
  }

  /**
   * No redirect loop: wherever the gate sends a request, following the
   * redirect once either leaves the gated paths or is let through.
   */
  lemma NoRedirectLoop(token: Option<Token>, path: string)
    requires Middleware(token, path).Redirect?
    ensures var target := Middleware(token, path).target;
      !Matched(target) || Middleware(token, target) == Pass
  {
    var target := Middleware(token, path).target;
    MiddlewareSpec(token, path);
    if target == LoginPath {
      LoginNotMatched();
    } else {
      HomeIsReachable(token.value);
    }
  }
}
