/** `LoginDTO`: the credentials of a login request, copied without change. */
module LoginDTO {

  datatype Login = Login(email: string, password: string)

  /** `LoginDTO::fromArray`; both keys must be present. */
  function FromArray(data: map<string, string>): (d: Login)
    requires "email" in data && "password" in data
    ensures d.email == data["email"] && d.password == data["password"]
  {
    Login(data["email"], data["password"])
  }

  /** `toCredentials`: the array the JWT port's `attemptLogin` takes. */
  function ToCredentials(d: Login): (c: map<string, string>)
    ensures c.Keys == {"email", "password"}
    ensures c["email"] == d.email && c["password"] == d.password
  {
    map["email" := d.email, "password" := d.password]
  }

  lemma FromCredentials(d: Login)
    ensures FromArray(ToCredentials(d)) == d
  {
  }

  /** A two-key request array survives the DTO unchanged, letter case and all. */
  lemma CredentialsRoundTrip(data: map<string, string>)
    requires data.Keys == {"email", "password"}
    ensures ToCredentials(FromArray(data)) == data
  {
    var c := ToCredentials(FromArray(data));
    assert forall k :: k in c ==> c[k] == data[k];
  }
}
