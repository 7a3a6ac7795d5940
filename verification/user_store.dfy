/** The persisted signed-in user: a token and four profile fields, each
    missing (`null`) when nobody is signed in. */
module UserStore {
  import opened Wrappers
  import opened Text

  datatype User = User(
    token: Option<String>,
    username: Option<String>,
    userId: Option<String>,
    role: Option<String>,
    email: Option<String>)

  /** The store's initial state and the state after sign-out. */
  function Initial(): User {
    User(None, None, None, None, None)
  }

  /** Nobody is signed in. */
  predicate SignedOut(u: User) {
    u.token.None? && u.username.None? && u.userId.None? && u.role.None? && u.email.None?
  }

  /** `setUser({ token, username, userId, role, email })`: all five fields
      are replaced; a field the argument lacks becomes missing, so no field
      of the previous user survives. */
  function SetUser(u: User, given: User): (r: User)
    ensures r.token == given.token && r.username == given.username
    ensures r.userId == given.userId && r.role == given.role && r.email == given.email
  {
    User(given.token, given.username, given.userId, given.role, given.email)
  }

  /** `clearUser()`: every field missing again. */
  function ClearUser(u: User): (r: User)
    ensures SignedOut(r)
  {
    Initial()
  }

  /** Signing out after signing in, or twice, gives the initial state; a
      second sign-in forgets the first. */
  lemma SessionRoundTrip(u: User, a: User, b: User)
    ensures ClearUser(SetUser(u, a)) == Initial()
    ensures ClearUser(ClearUser(u)) == ClearUser(u)
    ensures SetUser(SetUser(u, a), b) == SetUser(u, b)
    ensures SetUser(u, a) == a
    ensures SignedOut(u) <==> u == Initial()
  {
  }
}
