/** The sign-up and login form validators (FormValidation.js). Each returns
    the empty string for valid input and an error message otherwise. */
module FormValidation {
  import opened Wrappers
  import Text

  const InvalidEmail: string := "Please enter a valid email address"
  const PasswordRequired: string := "Password is required"
  const PasswordTooShort: string := "Password must be at least 6 characters"
  const MinPasswordLength: nat := 6

  /** A character the class `[^\s@]` admits. */
  predicate Plain(c: char) {
    !Text.IsJsWhitespace(c) && c != '@'
  }

  /** `s` matches `^[^\s@]+@[^\s@]+\.[^\s@]+$` with its `@` at `k` and the
      literal dot at `j`: every other character is plain, and the three runs
      around them are non-empty. */
  predicate EmailShapeAt(s: string, k: int, j: int) {
    && 0 < k && k + 1 < j && j + 1 < |s|
    && s[k] == '@' && s[j] == '.'
    && forall m :: 0 <= m < |s| && m != k ==> Plain(s[m])
  }

  ghost predicate EmailShaped(s: string) {
    exists k, j :: EmailShapeAt(s, k, j)
  }

  /** `validateEmail`: one left-to-right scan that tracks the first `@`,
      whether every other character is plain, and whether a dot with text on
      both sides follows the `@`. */
  method ValidateEmail(email: string) returns (message: string)
    ensures message == "" <==> EmailShaped(email)
    ensures message != "" ==> message == InvalidEmail
  {
    var at := -1;
    var plain := true;
    var dot := false;
    var i := 0;
    while i < |email|
      invariant 0 <= i <= |email|
      invariant -1 <= at < i
      invariant at == -1 ==> forall m :: 0 <= m < i ==> email[m] != '@'
      invariant at >= 0 ==> email[at] == '@' && forall m :: 0 <= m < at ==> email[m] != '@'
      invariant plain <==> forall m :: 0 <= m < i && m != at ==> Plain(email[m])
      invariant dot <==> at >= 0 && exists j :: at + 1 < j < i && j + 1 < |email| && email[j] == '.'
    {
      var c := email[i];
      if c == '@' {
        if at == -1 {
          at := i;
        } else {
          plain := false;
        }
      } else {
        if Text.IsJsWhitespace(c) {
          plain := false;
        }
        if c == '.' && at >= 0 && at + 1 < i && i + 1 < |email| {
          dot := true;
        }
      }
      i := i + 1;
    }
    if EmailShaped(email) {
      var k, j :| EmailShapeAt(email, k, j);
      assert at == k;
      assert email[j] == '.';
    }
    if plain && at > 0 && dot {
      var j :| at + 1 < j < |email| && j + 1 < |email| && email[j] == '.';
      assert EmailShapeAt(email, at, j);
      message := "";
    } else {
      message := InvalidEmail;
    }
  }

  /** In an accepted address the `@` is the only one, and no character is
      whitespace. */
  lemma EmailShapeSingleAt(s: string, k: int, j: int)
    requires EmailShapeAt(s, k, j)
    ensures forall m :: 0 <= m < |s| ==> (s[m] == '@' <==> m == k)
    ensures forall m :: 0 <= m < |s| ==> !Text.IsJsWhitespace(s[m])
  {
  }

  /** `validatePassword`: a missing or empty password is required; fewer
      than six characters is too short. */
  function ValidatePassword(password: Option<string>): (message: string)
    ensures message == "" <==> password.Some? && |password.value| >= MinPasswordLength
    ensures message == PasswordRequired <==> password.None? || password.value == ""
    ensures message == PasswordTooShort <==> password.Some? && 0 < |password.value| < MinPasswordLength
  {
    if password.None? || password.value == "" then PasswordRequired
    else if |password.value| < MinPasswordLength then PasswordTooShort
    else ""
  }

  /** `validateRequired`: the empty message exactly for a truthy value, and
      otherwise one naming the field. */
  function ValidateRequired(value: Option<string>, fieldName: string): (message: string)
    ensures message == "" <==> value.Some? && value.value != ""
    ensures message != "" ==> message == fieldName + " is required"
  {
    if value.Some? && value.value != "" then "" else fieldName + " is required"
  }

  /** The failure message of `validateRequired` tells the fields apart. */
  lemma RequiredMessageNamesField(a: string, b: string)
    requires ValidateRequired(None, a) == ValidateRequired(None, b)
    ensures a == b
  {
    var suffix := " is required";
    assert a == (a + suffix)[..|a|];
    assert |a + suffix| == |b + suffix|;
    assert b == (b + suffix)[..|b|];
  }
}
