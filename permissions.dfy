/**
 * The API's write gate: any signed-in user may read, only staff may write.
 */
module Permissions {
  import opened Wrappers

  /** The request's user; `None` stands for a request without one. */
  datatype User = User(isAuthenticated: bool, isStaff: bool)

  /** Django REST framework's `SAFE_METHODS`. */
  const SafeMethods: set<string> := {"GET", "HEAD", "OPTIONS"}

  predicate IsSafe(verb: string) {
    verb in SafeMethods
  }

  predicate Authenticated(user: Option<User>) {
    user.Some? && user.value.isAuthenticated
  }

  predicate Staff(user: Option<User>) {
    user.Some? && user.value.isStaff
  }

  /** `IsEditorOrReadOnly.has_permission`. */
  function HasPermission(verb: string, user: Option<User>): (allowed: bool)
    ensures IsSafe(verb) ==> (allowed <==> Authenticated(user))
    ensures !IsSafe(verb) ==> (allowed <==> Authenticated(user) && Staff(user))
  {
    if IsSafe(verb) then user.Some? && user.value.isAuthenticated
    else user.Some? && user.value.isAuthenticated && user.value.isStaff
  }

  /** Without an authenticated user every method is refused. */
  lemma AnonymousRefused(verb: string, user: Option<User>)
    requires !Authenticated(user)
    ensures !HasPermission(verb, user)
  {
  }

  /** Reads are allowed for every authenticated user, staff or not. */
  lemma ReadsForEveryone(user: Option<User>)
    requires Authenticated(user)
    ensures HasPermission("GET", user) && HasPermission("HEAD", user) && HasPermission("OPTIONS", user)
  {
  }

  /** Writes need staff: a POST, PUT, PATCH or DELETE is allowed exactly for an
      authenticated staff user. */
  lemma WritesNeedStaff(verb: string, user: Option<User>)
    requires verb in {"POST", "PUT", "PATCH", "DELETE"}
    ensures HasPermission(verb, user) <==> Authenticated(user) && Staff(user)
  {
  }

  /** Whoever may write may also read. */
  lemma WriteImpliesRead(write: string, read: string, user: Option<User>)
    requires !IsSafe(write) && IsSafe(read)
    requires HasPermission(write, user)
    ensures HasPermission(read, user)
  {
  }

  /** The decision depends only on whether the method is safe and on the
      user's two flags. */
  lemma DecisionDependsOnFlags(m1: string, u1: Option<User>, m2: string, u2: Option<User>)
    requires IsSafe(m1) == IsSafe(m2)
    requires Authenticated(u1) == Authenticated(u2) && Staff(u1) == Staff(u2)
    ensures HasPermission(m1, u1) == HasPermission(m2, u2)
  {
  }
}
