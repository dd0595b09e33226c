/**
 * The sign-up and sign-in request of the hybrid service, with its validation attributes.
 * `MinLength` and `MaxLength` measure `string.Length`, in UTF-16 code units.
 */
module HybridAuthRequest {
  import opened Text

  /** A failed validation attribute: the member it is on and its message. */
  datatype ValidationError = ValidationError(member: string, message: string)

  /** The character class `[a-zA-Z0-9_]`. */
  predicate IsUsernameChar(c: char) {
    ('a' <= c <= 'z') || ('A' <= c <= 'Z') || ('0' <= c <= '9') || c == '_'
  }

  /**
   * `RegularExpression("^[a-zA-Z0-9_]+$")`: the whole value must match (the attribute
   * accepts an empty value).
   */
  predicate MatchesUsernamePattern(s: string) {
    forall i :: 0 <= i < |s| ==> IsUsernameChar(s[i])
  }

  /** Every failing attribute of the request, username first, each with its message. */
  function Validate(username: string, password: string): seq<ValidationError> {
    (if Utf16Length(username) < 3 then [ValidationError("Username", "Username must be at least 3 characters")] else [])
    + (if Utf16Length(username) > 50 then [ValidationError("Username", "Username cannot exceed 50 characters")] else [])
    + (if !MatchesUsernamePattern(username)
       then [ValidationError("Username", "Username can only contain letters, numbers, and underscores")] else [])
    + (if Utf16Length(password) < 6 then [ValidationError("Password", "Password must be at least 6 characters")] else [])
    + (if Utf16Length(password) > 100 then [ValidationError("Password", "Password cannot exceed 100 characters")] else [])
  }

  /**
   * A request is accepted exactly when the username is 3 to 50 UTF-16 code units long, all
   * letters, digits or underscores, and the password is 6 to 100 code units long; a rejected
   * username is reported on the Username member.
   */
  lemma AcceptedIff(username: string, password: string)
    ensures Validate(username, password) == [] <==>
      3 <= Utf16Length(username) <= 50 && MatchesUsernamePattern(username) && 6 <= Utf16Length(password) <= 100
    ensures !(3 <= Utf16Length(username) <= 50 && MatchesUsernamePattern(username)) ==>
      Validate(username, password) != [] && Validate(username, password)[0].member == "Username"
  {
  }

  /** A username that passes the character rule is ASCII, so its code units are its characters. */
  lemma PatternUsernameLength(username: string)
    requires MatchesUsernamePattern(username)
    ensures Utf16Length(username) == |username|
  {
    Utf16LengthBmp(username);
  }
}

/** The sign-up and sign-in request of the access/refresh service. */
module AuthRequest {
  import opened Text

  datatype ValidationError = ValidationError(member: string, message: string)

  /**
   * `MinLength(3)` and `MaxLength(50)` on the username with their default messages; the
   * character rule is commented out and the password carries no attribute.
   */
  function Validate(username: string, password: string): seq<ValidationError> {
    (if Utf16Length(username) < 3
     then [ValidationError("Username", "The field Username must be a string or array type with a minimum length of '3'.")]
     else [])
    + (if Utf16Length(username) > 50
       then [ValidationError("Username", "The field Username must be a string or array type with a maximum length of '50'.")]
       else [])
  }

  /**
   * Accepted exactly when the username is 3 to 50 UTF-16 code units long, whatever its
   * characters and whatever the password.
   */
  lemma AcceptedIff(username: string, password: string, otherPassword: string)
    ensures Validate(username, password) == [] <==> 3 <= Utf16Length(username) <= 50
    ensures Validate(username, password) == Validate(username, otherPassword)
  {
  }

  /** Two emoji are four code units: long enough, although only two characters. */
  lemma AstralUsernameAccepted()
    ensures Utf16Length("\U{1F600}\U{1F600}") == 4
    ensures Validate("\U{1F600}\U{1F600}", "") == []
  {
    var s := "\U{1F600}\U{1F600}";
    assert s[..1] == "\U{1F600}" && s[..1][..0] == [];
  }
}
