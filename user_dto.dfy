/**
 * `UserDto`: the user record of the API. Its username and e-mail setters
 * store the value trimmed and lower-cased, so that logins and uniqueness
 * checks compare identifiers in one spelling; the password is kept as given.
 */
module UserDtoModel {
  import opened Wrappers
  import opened Strings

  /** `s.trim().toLowerCase()`. */
  function NormalizeIdentifier(s: string): (r: string)
    ensures |r| <= |s|
    ensures forall i :: 0 <= i < |r| ==> !IsAsciiUpper(r[i])
    ensures r == [] || (r[0] > ' ' && r[|r| - 1] > ' ')
  {
    ToLower(Trim(s))
  }

  /** Trimming text that already starts and ends with a visible character changes nothing. */
  lemma TrimOfTrimmed(s: string)
    requires s == [] || (s[0] > ' ' && s[|s| - 1] > ' ')
    ensures Trim(s) == s
  {
  }

  /** Storing a stored identifier again leaves it unchanged. */
  lemma NormalizeIdentifierIdempotent(s: string)
    ensures NormalizeIdentifier(NormalizeIdentifier(s)) == NormalizeIdentifier(s)
  {
    var n := NormalizeIdentifier(s);
    TrimOfTrimmed(n);
  }

  /** Blanks around an identifier are dropped: what is stored is the identifier in lower case. */
  lemma NormalizeIdentifierIgnoresBlanks(pre: string, s: string, post: string)
    requires AllBlank(pre) && AllBlank(post)
    requires s == [] || (s[0] > ' ' && s[|s| - 1] > ' ')
    ensures NormalizeIdentifier(pre + s + post) == ToLower(s)
  {
    TrimBetweenBlanks(pre, s, post);
  }

  /** Identifiers that differ only in the case of their letters are stored alike. */
  lemma NormalizeIdentifierIgnoresCase(s: string)
    ensures NormalizeIdentifier(ToLower(s)) == NormalizeIdentifier(s)
  {
    TrimOfLower(s);
    ToLowerOfLower(ToLower(Trim(s)));
  }

  class UserDto {
    var id: Option<string>
    var username: Option<string>
    var email: Option<string>
    var password: Option<string>
    var fullName: Option<string>
    var phone: Option<string>
    var enable: Option<bool>

    /** `@AllArgsConstructor` (and the builder): the values are stored as given, without normalisation. */
    constructor (id: Option<string>, username: Option<string>, email: Option<string>, password: Option<string>,
                 fullName: Option<string>, phone: Option<string>, enable: Option<bool>)
      ensures this.id == id && this.username == username && this.email == email && this.password == password
      ensures this.fullName == fullName && this.phone == phone && this.enable == enable
    {
      this.id := id;
      this.username := username;
      this.email := email;
      this.password := password;
      this.fullName := fullName;
      this.phone := phone;
      this.enable := enable;
    }

    /** `setPassword`: stored verbatim. */
    method SetPassword(password: Option<string>)
      modifies this
      ensures this.password == password
      ensures id == old(id) && username == old(username) && email == old(email)
      ensures fullName == old(fullName) && phone == old(phone) && enable == old(enable)
    {
      this.password := password;
    }

    /** `setUsername`: trimmed and lower-cased; null stays null. */
    method SetUsername(username: Option<string>)
      modifies this
      ensures username.None? ==> this.username.None?
      ensures username.Some? ==> this.username == Some(NormalizeIdentifier(username.value))
      ensures id == old(id) && email == old(email) && password == old(password)
      ensures fullName == old(fullName) && phone == old(phone) && enable == old(enable)
    {
      this.username := if username.Some? then Some(ToLower(Trim(username.value))) else None;
    }

    /** `setEmail`: trimmed and lower-cased; null stays null. */
    method SetEmail(email: Option<string>)
      modifies this
      ensures email.None? ==> this.email.None?
      ensures email.Some? ==> this.email == Some(NormalizeIdentifier(email.value))
      ensures id == old(id) && username == old(username) && password == old(password)
      ensures fullName == old(fullName) && phone == old(phone) && enable == old(enable)
    {
      this.email := if email.Some? then Some(ToLower(Trim(email.value))) else None;
    }
  }
}
