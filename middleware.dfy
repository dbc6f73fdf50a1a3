/** The admin guard placed in front of every privileged procedure. */
module Middleware {
  import opened Outcomes
  import opened Entities
  import opened Tables

  /** The signed-in user as the session carries it; the session's own role may be absent. */
  datatype SessionUser = SessionUser(id: Id, name: string, email: string, role: Option<Role>)

  /** A session; it may exist without a user. */
  datatype Session = Session(user: Option<SessionUser>)

  predicate IsAdminRole(role: Role) {
    role == Admin || role == SuperAdmin
  }

  /** `isAdmin`: no session or no session user is UNAUTHORIZED; otherwise the user's role is
      read from the user table, and a missing record or a role other than ADMIN and
      SUPER_ADMIN is FORBIDDEN. On success the procedure runs with the session user whose
      role is replaced by the stored one. */
  function IsAdmin(session: Option<Session>, users: seq<User>): (r: Result<SessionUser>)
    requires KeysUnique(users, UserId)
    ensures session.None? || session.value.user.None? ==> r == Err(Unauthorized)
    ensures session.Some? && session.value.user.Some? ==> r.Ok? || r == Err(Forbidden)
    ensures r.Ok? <==> (session.Some? && session.value.user.Some? &&
                        exists i :: 0 <= i < |users| && users[i].id == session.value.user.value.id && IsAdminRole(users[i].role))
    ensures r.Ok? ==> (exists i :: 0 <= i < |users| && users[i].id == session.value.user.value.id &&
                                   r.value == session.value.user.value.(role := Some(users[i].role)))
  {
    if session.None? || session.value.user.None? then Err(Unauthorized)
    else
      var su := session.value.user.value;
      match FindFirst(users, UserId, su.id)
      case None => Err(Forbidden)
      case Some(i) =>
        if !IsAdminRole(users[i].role) then Err(Forbidden)
        else Ok(su.(role := Some(users[i].role)))
  }

  /** The guard lets this session through. */
  predicate Admits(session: Option<Session>, users: seq<User>)
    requires KeysUnique(users, UserId)
  {
    IsAdmin(session, users).Ok?
  }
}
