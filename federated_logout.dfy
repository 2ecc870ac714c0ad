/**
 * `GET /api/auth/federated-logout`: tells the browser where to go to sign
 * out of Google as well as of the application.
 */
module FederatedLogout {
  import opened Common
  import opened Sessions
  import opened FormUrl

  const GoogleLogout := "https://accounts.google.com/logout"
  const ContinueQuery := "?continue="
  const SignoutCompletePath := "/auth/signout-complete"

  /** The JSON reply: `{ url, reason }`, with no `reason` on the Google path. */
  datatype Reply = Reply(url: string, reason: Option<string>)

  /** `${process.env.NEXTAUTH_URL}/auth/signout-complete`: a missing variable prints as "undefined". */
  function ContinueTarget(nextAuthUrl: Option<string>): (s: string)
    ensures |s| >= |SignoutCompletePath| && s[|s| - |SignoutCompletePath|..] == SignoutCompletePath
  {
    (if nextAuthUrl.Some? then nextAuthUrl.value else "undefined") + SignoutCompletePath
  }

  /**
   * No session: back to `/`. A session with no user makes the route throw,
   * which its catch turns into `/` with reason "error". No id token: the
   * plain login page. Otherwise Google's logout URL whose `continue`
   * parameter, set through `searchParams`, is the serialized return address.
   */
  function Get(session: Option<Session>, nextAuthUrl: Option<string>): (r: Reply)
    ensures session.None? <==> r == Reply("/", Some("no_session"))
    ensures r == Reply("/", Some("error")) <==> session.Some? && session.value.user.None?
    ensures r == Reply("/login", Some("no_id_token")) <==>
      session.Some? && session.value.user.Some? && !Truthy(session.value.user.value.idToken)
    ensures r.reason.None? <==>
      session.Some? && session.value.user.Some? && Truthy(session.value.user.value.idToken)
    ensures r.reason.None? ==> r.url == GoogleLogout + ContinueQuery + FormEncode(ContinueTarget(nextAuthUrl))
  {
    if session.None? then Reply("/", Some("no_session"))
    else if session.value.user.None? then Reply("/", Some("error"))
    else if !Truthy(session.value.user.value.idToken) then Reply("/login", Some("no_id_token"))
    else Reply(GoogleLogout + ContinueQuery + FormEncode(ContinueTarget(nextAuthUrl)), None)
  }

  /**
   * On the Google path the query holds exactly one parameter, whose value
   * Google reads back as the application's sign-out page when the
   * configured base URL is ASCII.
   */
  lemma ContinueRoundTrip(session: Option<Session>, nextAuthUrl: Option<string>)
    requires Get(session, nextAuthUrl).reason.None?
    requires nextAuthUrl.Some? ==> Ascii(nextAuthUrl.value)
    ensures var url := Get(session, nextAuthUrl).url;
      var value := url[|GoogleLogout + ContinueQuery|..];
      && url[..|GoogleLogout + ContinueQuery|] == GoogleLogout + ContinueQuery
      && '&' !in value && '#' !in value
      && FormDecode(value) == ContinueTarget(nextAuthUrl)
  {
    var target := ContinueTarget(nextAuthUrl);
    var prefix := GoogleLogout + ContinueQuery;
    var value := FormEncode(target);
    var url := Get(session, nextAuthUrl).url;
    assert url == prefix + value;
    assert url[..|prefix|] == prefix && url[|prefix|..] == value;
    TargetIsAscii(nextAuthUrl);
    DecodeEncode(target);
    forall i | 0 <= i < |value| ensures value[i] != '&' && value[i] != '#' {
      assert SafeChar(value[i]);
    }
  }

  lemma TargetIsAscii(nextAuthUrl: Option<string>)
    requires nextAuthUrl.Some? ==> Ascii(nextAuthUrl.value)
    ensures Ascii(ContinueTarget(nextAuthUrl))
  {
    var base := if nextAuthUrl.Some? then nextAuthUrl.value else "undefined";
    assert Ascii(base);
    assert Ascii(SignoutCompletePath);
    AsciiConcat(base, SignoutCompletePath);
  }
}
