/**
 * What NextAuth hands to the application: the JWT it keeps between requests
 * and the session object that server code reads. Only the fields this
 * application reads or writes are kept; a field JavaScript may leave
 * `undefined` is an `Option`.
 */
module Sessions {
  import opened Common

  const ManagerRole := "manager"
  const WasherRole := "washer"
  const DriverRole := "driver"

  datatype Token = Token(email: Option<string>, id: Option<string>, role: Option<string>, idToken: Option<string>)

  datatype SessionUser = SessionUser(id: Option<string>, email: string, role: Option<string>, idToken: Option<string>)

  /** `session.user` is declared by NextAuth but may be missing. */
  datatype Session = Session(user: Option<SessionUser>)

  /**
   * The gate every API route opens with:
   * `!session || !session.user || session.user.role !== required` means 401.
   */
  predicate HasRole(session: Option<Session>, required: string) {
    session.Some? && session.value.user.Some? && session.value.user.value.role == Some(required)
  }

  /**
   * The signed-in user behind a session that passed the gate: an accessor,
   * whose ensures only carries `HasRole`'s role test to the user it returns.
   */
  function GateUser(session: Option<Session>, required: string): (u: SessionUser)
    requires HasRole(session, required)
    ensures u.role == Some(required)
  {
    session.value.user.value
  }
}
