/**
  Users as the controllers see them (an identity and a set of roles), and the
  rule both controllers use to decide who is acting: the logged-in user, or
  the user named in the route when that is the logged-in user or nobody is
  logged in.
 */
module Users {
  import opened Types

  datatype Role = RoleStudent | RoleTeacher | RoleAdmin | RoleUser

  datatype User = User(id: UserId, roles: set<Role>)

  /** The user repository is consistent: each user is stored under its own id. */
  predicate WellKeyed(users: map<UserId, User>) {
    forall k :: k in users ==> users[k].id == k
  }

  /**
    `get{Student,Teacher}FromIdOrToken` for the given role. Without a route
    id the actor is the logged-in user if that user holds the role. With an
    id the actor is the user stored under it, provided that user exists,
    holds the role, and, when somebody is logged in, has that very id.
   */
  function ResolveActor(users: map<UserId, User>, current: Option<User>, id: Option<UserId>, role: Role): (r: Option<User>)
    ensures r.Some? ==> role in r.value.roles
    ensures id.None? ==> (r.Some? <==> current.Some? && role in current.value.roles)
    ensures id.None? && r.Some? ==> r == current
    ensures id.Some? ==> (r.Some? <==>
      id.value in users && role in users[id.value].roles && (current.None? || current.value.id == id.value))
    ensures id.Some? && r.Some? ==> r.value == users[id.value]
  {
    match id
    case None =>
      if current.Some? && role in current.value.roles then current else None
    case Some(i) =>
      if i !in users || role !in users[i].roles then None
      else if current.Some? && current.value.id != i then None
      else Some(users[i])
  }

  /** Whoever is logged in, nobody can act as a different user. */
  lemma ActorIsTheLoggedInUser(users: map<UserId, User>, current: Option<User>, id: Option<UserId>, role: Role)
    requires WellKeyed(users)
    requires current.Some? && ResolveActor(users, current, id, role).Some?
    ensures ResolveActor(users, current, id, role).value.id == current.value.id
  {
  }

  /** `getStudentFromIdOrToken`: the acting student, if any. */
  function StudentFromIdOrToken(users: map<UserId, User>, current: Option<User>, id: Option<UserId>): (r: Option<User>)
    ensures r.Some? ==> RoleStudent in r.value.roles
    ensures id.None? ==> (r.Some? <==> current.Some? && RoleStudent in current.value.roles) && (r.Some? ==> r == current)
    ensures id.Some? && r.Some? ==> id.value in users && r.value == users[id.value]
    ensures id.Some? && current.Some? && current.value.id != id.value ==> r.None?
  {
    ResolveActor(users, current, id, RoleStudent)
  }

  /** `getTeacherFromIdOrToken`: the same rule as for students, with the teacher role. */
  function TeacherFromIdOrToken(users: map<UserId, User>, current: Option<User>, id: Option<UserId>): (r: Option<User>)
    ensures r.Some? ==> RoleTeacher in r.value.roles
    ensures id.None? ==> (r.Some? <==> current.Some? && RoleTeacher in current.value.roles) && (r.Some? ==> r == current)
    ensures id.Some? && r.Some? ==> id.value in users && r.value == users[id.value]
    ensures id.Some? && current.Some? && current.value.id != id.value ==> r.None?
  {
    ResolveActor(users, current, id, RoleTeacher)
  }
}
