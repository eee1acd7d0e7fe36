/** `AuthTokenDTO`: the token answer of a login or refresh, with the field
    names of section 5.1 of RFC 6749. */
module AuthTokenDTO {
  import opened Json

  /** An immutable value, as the readonly PHP class is. */
  datatype AuthToken = AuthToken(accessToken: string, tokenType: string, expiresIn: int)

  const SecondsPerMinute: int := 60

  /** `AuthTokenDTO::fromToken`: a bearer token whose lifetime, given in
      minutes, is stated in seconds. */
  function FromToken(token: string, ttlMinutes: int): (t: AuthToken)
    ensures t.accessToken == token && t.tokenType == "bearer"
    ensures t.expiresIn % SecondsPerMinute == 0 && t.expiresIn / SecondsPerMinute == ttlMinutes
  {
    AuthToken(token, "bearer", ttlMinutes * SecondsPerMinute)
  }

  /** `toArray`: exactly the three snake_case keys, with the field values. */
  function ToArray(t: AuthToken): (a: map<string, Json>)
    ensures a.Keys == {"access_token", "token_type", "expires_in"}
    ensures "accessToken" !in a && "tokenType" !in a && "expiresIn" !in a
    ensures a["access_token"] == Str(t.accessToken)
    ensures a["token_type"] == Str(t.tokenType)
    ensures a["expires_in"] == Int(t.expiresIn)
  {
    map["access_token" := Str(t.accessToken), "token_type" := Str(t.tokenType), "expires_in" := Int(t.expiresIn)]
  }

  /** `toArray` loses nothing: distinct tokens give distinct arrays. */
  lemma ToArrayInjective(t: AuthToken, u: AuthToken)
    requires ToArray(t) == ToArray(u)
    ensures t == u
  {
    assert ToArray(t)["access_token"] == ToArray(u)["access_token"];
    assert ToArray(t)["token_type"] == ToArray(u)["token_type"];
    assert ToArray(t)["expires_in"] == ToArray(u)["expires_in"];
  }

  /** The lifetimes the tests use: 1, 60 and 120 minutes. */
  lemma Lifetimes()
    ensures FromToken("short.token", 1).expiresIn == 60
    ensures FromToken("fake.jwt.token", 60).expiresIn == 3600
    ensures FromToken("token123", 120).expiresIn == 7200
  {
  }
}
