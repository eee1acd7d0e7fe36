/** `GetAuthenticatedUserQuery`: the current caller, as a `UserDTO`, or null. */
module GetAuthenticatedUserQuery {
  import opened Wrappers
  import opened UserData

  /** The user model the auth port hands back; its `toArray` yields the row. */
  class AuthenticatedUser {
    const attributes: Row
    var toArrayCalls: nat

    constructor (attributes: Row)
      ensures this.attributes == attributes && toArrayCalls == 0
    {
      this.attributes := attributes;
      toArrayCalls := 0;
    }

    method ToArray() returns (row: Row)
      modifies this
      ensures row == attributes
      ensures toArrayCalls == old(toArrayCalls) + 1
    {
      row := attributes;
      toArrayCalls := toArrayCalls + 1;
    }
  }

  /** The part of the JWT port the query uses: who the caller is, if anyone.
      `lookups` counts the calls. */
  class AuthPort {
    var current: Option<AuthenticatedUser>
    var lookups: nat

    constructor (current: Option<AuthenticatedUser>)
      ensures this.current == current && lookups == 0
    {
      this.current := current;
      lookups := 0;
    }

    method GetAuthenticatedUser() returns (user: Option<AuthenticatedUser>)
      modifies this`lookups
      ensures user == current
      ensures lookups == old(lookups) + 1
    {
      user := current;
      lookups := lookups + 1;
    }
  }

  /** `execute`: asks the port once; null when nobody is authenticated,
      otherwise the DTO of the user's array, read once. */
  method Execute(auth: AuthPort) returns (r: Option<UserDTO>)
    requires auth.current.Some? ==> IsUserRow(auth.current.value.attributes)
    modifies auth`lookups, if auth.current.Some? then {auth.current.value} else {}
    ensures auth.lookups == old(auth.lookups) + 1
    ensures r.None? <==> auth.current.None?
    ensures auth.current.Some? ==> r == Some(FromDatabase(auth.current.value.attributes))
    ensures auth.current.Some? ==>
              auth.current.value.toArrayCalls == old(auth.current.value.toArrayCalls) + 1
  {
    var user := auth.GetAuthenticatedUser();
    if user.None? {
      return None;
    }
    var row := user.value.ToArray();
    r := Some(FromDatabase(row));
  }
}
