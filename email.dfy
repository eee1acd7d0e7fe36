/** The `Email` value object of the User domain. */
module Email {
  import opened Wrappers
  import Text

  /** An address as stored: always lower-case. */
  datatype Address = Address(value: string)
  type Email = a: Address | Text.IsLower(a.value) witness Address("")

  const InvalidFormat: string := "Invalid email format"

  /** `new Email($raw)`: the address lower-cased, or the exception the
      constructor throws when the format check `isValidFormat` rejects it. */
  function Create(raw: string, isValidFormat: string -> bool): (r: Result<Email>)
    ensures r.Ok? <==> isValidFormat(Text.Lower(raw))
    ensures r.Ok? ==> r.value.value == Text.Lower(raw)
    ensures r.Err? ==> r.message == InvalidFormat
  {
    var lowered := Text.Lower(raw);
    Text.LowerIsLower(raw);
    if isValidFormat(lowered) then Ok(Address(lowered)) else Err(InvalidFormat)
  }

  /** `equals`: same stored address. */
  function Equals(a: Email, b: Email): bool {
    a.value == b.value
  }

  /** `__toString`. */
  function ToString(e: Email): string {
    e.value
  }

  /** An address already in lower case is stored exactly as given. */
  lemma StoredAsGiven(raw: string, isValidFormat: string -> bool)
    requires Text.IsLower(raw) && isValidFormat(raw)
    ensures Create(raw, isValidFormat) == Ok(Address(raw))
  {
    Text.LowerOfLower(raw);
  }

  /** Two valid inputs make equal emails exactly when they agree up to the
      case of ASCII letters. */
  lemma EqualsIgnoresCase(a: string, b: string, isValidFormat: string -> bool)
    requires Create(a, isValidFormat).Ok? && Create(b, isValidFormat).Ok?
    ensures Equals(Create(a, isValidFormat).value, Create(b, isValidFormat).value)
            <==> Text.Lower(a) == Text.Lower(b)
  {
  }

  /** Converting to a string and back gives the same email. */
  lemma ToStringRoundTrip(e: Email, isValidFormat: string -> bool)
    requires isValidFormat(ToString(e))
    ensures Create(ToString(e), isValidFormat) == Ok(e)
  {
    Text.LowerOfLower(e.value);
  }

  /** `'TEST@EXAMPLE.COM'` is stored as `'test@example.com'`. */
  lemma UpperCaseExample(isValidFormat: string -> bool)
    requires isValidFormat("test@example.com")
    ensures Create("TEST@EXAMPLE.COM", isValidFormat) == Ok(Address("test@example.com"))
  {
    Text.LowerMatches("TEST@EXAMPLE.COM", "test@example.com");
  }

  /** A check that rejects `'invalid-email'` makes the constructor throw. */
  lemma InvalidExample(isValidFormat: string -> bool)
    requires !isValidFormat("invalid-email")
    ensures Create("invalid-email", isValidFormat) == Err(InvalidFormat)
  {
    Text.LowerMatches("invalid-email", "invalid-email");
  }

  /** The same address twice gives equal emails; another address does not. */
  lemma EqualsExample(isValidFormat: string -> bool)
    requires isValidFormat("test@example.com") && isValidFormat("other@example.com")
    ensures Create("test@example.com", isValidFormat) == Ok(Address("test@example.com"))
    ensures Create("other@example.com", isValidFormat) == Ok(Address("other@example.com"))
    ensures Equals(Address("test@example.com"), Address("test@example.com"))
    ensures !Equals(Address("test@example.com"), Address("other@example.com"))
  {
    assert Text.IsLower("test@example.com") by { }
    assert Text.IsLower("other@example.com") by { }
    StoredAsGiven("test@example.com", isValidFormat);
    StoredAsGiven("other@example.com", isValidFormat);
  }
}
