/** `IsAdminOrReadOnly` (flash_promo/permissions.py): anyone signed in may
    read, only staff may write. */
module Permissions {
  import opened Wrappers

  /** The request methods that only read. */
  const SAFE_METHODS: seq<string> := ["GET", "HEAD", "OPTIONS"]

  /** The two flags of the requesting user the permission reads. */
  datatype UserFlags = UserFlags(isAuthenticated: bool, isStaff: bool)

  predicate IsSafe(verb: string) {
    verb in SAFE_METHODS
  }

  /** `has_permission(request, view)`; an absent user is falsy. */
  function HasPermission(verb: string, user: Option<UserFlags>): (r: bool)
    ensures r ==> user.Some?
  {
    if IsSafe(verb) then user.Some? && user.value.isAuthenticated
    else user.Some? && user.value.isStaff
  }

  /** A request without a user is always denied. */
  lemma NoUserDenied(verb: string)
    ensures !HasPermission(verb, None)
  {
  }

  /** Reading is allowed exactly to authenticated users, staff or not. */
  lemma SafeIffAuthenticated(verb: string, flags: UserFlags)
    requires IsSafe(verb)
    ensures HasPermission(verb, Some(flags)) <==> flags.isAuthenticated
  {
  }

  /** Writing is allowed exactly to staff users; being authenticated is not
      consulted. */
  lemma UnsafeIffStaff(verb: string, flags: UserFlags)
    requires !IsSafe(verb)
    ensures HasPermission(verb, Some(flags)) <==> flags.isStaff
  {
  }

  /** POST, PUT, PATCH and DELETE are writes; GET, HEAD and OPTIONS reads. */
  lemma WritesAreUnsafe()
    ensures !IsSafe("POST") && !IsSafe("PUT") && !IsSafe("PATCH") && !IsSafe("DELETE")
    ensures IsSafe("GET") && IsSafe("HEAD") && IsSafe("OPTIONS")
  {
    assert SAFE_METHODS[0] == "GET" && SAFE_METHODS[1] == "HEAD" && SAFE_METHODS[2] == "OPTIONS";
  }

  /** The decision reads only whether the method is safe and the two flags. */
  lemma DependsOnlyOnSafetyAndFlags(m: string, m': string, user: Option<UserFlags>)
    requires IsSafe(m) == IsSafe(m')
    ensures HasPermission(m, user) == HasPermission(m', user)
  {
  }
}
