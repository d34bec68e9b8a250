/** The authentication actions: the sign-up validators and the normalisation of an accepted
    form, the login failure branch, and the access-token expiry and validity decisions.
    A form field that is missing is the empty string, which every validator treats like an
    empty value. */
module Auth {
  import opened Common
  import opened Strings
  import ControlBoard

  // ---------------------------------------------------------------------------
  // Names
  // ---------------------------------------------------------------------------

  /** `[\u0621-\u064A\u0660-\u0669a-zA-Z\s'-]`: Arabic letters, Arabic-Indic digits, ASCII
      letters, whitespace, apostrophe and hyphen. */
  predicate IsNameChar(c: char)
  {
    (0x0621 <= c as int <= 0x064A) || (0x0660 <= c as int <= 0x0669)
    || IsAsciiLower(c) || IsAsciiUpper(c) || IsJsWhitespace(c) || c == '\'' || c == '-'
  }

  predicate AllNameChars(s: string) { forall k :: 0 <= k < |s| ==> IsNameChar(s[k]) }

  const NameCharsMessage: string := "Only Arabic or English letters, spaces, hyphens, and apostrophes are allowed"

  /** The first-name or last-name check on the trimmed value; the first failing rule wins:
      blank, shorter than 2, longer than 50, a character outside the allowed class. */
  function NameError(raw: string, field: string): (e: Option<string>)
    ensures e.None? <==> 2 <= |Trim(raw)| <= 50 && AllNameChars(Trim(raw))
    ensures AllWhitespace(raw) ==> e == Some(field + " is required")
    ensures !AllWhitespace(raw) && |Trim(raw)| < 2 ==> e == Some(field + " must be at least 2 characters long")
    ensures |Trim(raw)| > 50 ==> e == Some(field + " must be less than 50 characters")
    ensures 2 <= |Trim(raw)| <= 50 && !AllNameChars(Trim(raw)) ==> e == Some(NameCharsMessage)
  {
    var t := Trim(raw);
    if |t| == 0 then Some(field + " is required")
    else if |t| < 2 then Some(field + " must be at least 2 characters long")
    else if |t| > 50 then Some(field + " must be less than 50 characters")
    else if !AllNameChars(t) then Some(NameCharsMessage)
    else None
  }

  // ---------------------------------------------------------------------------
  // Email
  // ---------------------------------------------------------------------------

  /** `[^\s@]`: neither whitespace nor `@`. */
  predicate IsPlain(c: char) { c != '@' && !IsJsWhitespace(c) }

  predicate IsAt(c: char) { c == '@' }

  predicate IsDot(c: char) { c == '.' }

  /** What `^[^\s@]+@[^\s@]+\.[^\s@]+$` matches: an `@` at `i` and a dot at `j` with at least
      one character before the `@`, between the two and after the dot, and no whitespace and
      no other `@` anywhere. */
  ghost predicate MatchesEmailPattern(s: string)
  {
    exists i, j :: AddressAt(s, i, j)
  }

  predicate AddressAt(s: string, i: int, j: int)
  {
    0 < i && i + 1 < j && j + 1 < |s| && s[i] == '@' && s[j] == '.'
    && forall k :: 0 <= k < |s| && k != i ==> IsPlain(s[k])
  }

  /** The same shape decided by scanning: the first `@`, then the first dot after the
      character that follows it. */
  function EmailShape(s: string): bool
  {
    match FindFirst(s, IsAt)
    case None => false
    case Some(i) =>
      if i == 0 || i + 2 >= |s| || !(forall k :: 0 <= k < |s| && k != i ==> IsPlain(s[k])) then false
      else
        match FindFirst(s[i + 2..], IsDot)
        case None => false
        case Some(d) => i + 2 + d + 1 < |s|
  }

  /** A successful scan finds an address. */
  lemma ShapeHasAddress(s: string)
    requires EmailShape(s)
    ensures MatchesEmailPattern(s)
  {
    var i := FindFirst(s, IsAt).value;
    var d := FindFirst(s[i + 2..], IsDot).value;
    assert s[i + 2..][d] == s[i + 2 + d];
    assert AddressAt(s, i, i + 2 + d);
  }

  /** Every address is found by the scan. */
  lemma AddressHasShape(s: string, i: int, j: int)
    requires AddressAt(s, i, j)
    ensures EmailShape(s)
  {
    assert FindFirst(s, IsAt) == Some(i) by {
      match FindFirst(s, IsAt)
      case None =>
      case Some(a) =>
    }
    var rest := s[i + 2..];
    assert rest[j - i - 2] == '.';
    match FindFirst(rest, IsDot)
    case None =>
    case Some(d) =>
      assert d <= j - i - 2;
  }

  /** The scan decides exactly the pattern. */
  lemma EmailShapeIsPattern(s: string)
    ensures EmailShape(s) <==> MatchesEmailPattern(s)
  {
    if EmailShape(s) {
      ShapeHasAddress(s);
    }
    if MatchesEmailPattern(s) {
      var i, j :| AddressAt(s, i, j);
      AddressHasShape(s, i, j);
    }
  }

  const InvalidEmailMessage: string := "Please enter a valid email address"

  /** The email check; the first failing rule wins: blank, no `@` in the raw value, the trimmed
      value does not have the address shape, the trimmed value is longer than 254. */
  function EmailError(raw: string): (e: Option<string>)
    ensures e.None? <==> MatchesEmailPattern(Trim(raw)) && |Trim(raw)| <= 254
    ensures AllWhitespace(raw) ==> e == Some("Email address is required")
    ensures !AllWhitespace(raw) && '@' !in raw ==> e == Some(InvalidEmailMessage)
    ensures !AllWhitespace(raw) && !MatchesEmailPattern(Trim(raw)) ==> e == Some(InvalidEmailMessage)
    ensures MatchesEmailPattern(Trim(raw)) && |Trim(raw)| > 254 ==> e == Some("Email address is too long")
  {
    EmailShapeIsPattern(Trim(raw));
    TrimmedAtInRaw(raw);
    var t := Trim(raw);
    if |t| == 0 then Some("Email address is required")
    else if '@' !in raw then Some(InvalidEmailMessage)
    else if !EmailShape(t) then Some(InvalidEmailMessage)
    else if |t| > 254 then Some("Email address is too long")
    else None
  }

  /** An address shape in the trimmed value has its `@` in the raw value too. */
  lemma TrimmedAtInRaw(raw: string)
    ensures MatchesEmailPattern(Trim(raw)) ==> |Trim(raw)| > 0 && '@' in raw
  {
    var t := Trim(raw);
    if MatchesEmailPattern(t) {
      var i, j :| AddressAt(t, i, j);
      assert t[i] == '@';
      TrimmedCharInRaw(raw, i);
    }
  }

  /** Every character of the trimmed value is a character of the raw value. */
  lemma TrimmedCharInRaw(raw: string, i: int)
    requires 0 <= i < |Trim(raw)|
    ensures Trim(raw)[i] in raw
  {
    var t := Trim(raw);
    var a :| 0 <= a <= |raw| - |t| && raw[a..a + |t|] == t
             && AllWhitespace(raw[..a]) && AllWhitespace(raw[a + |t|..]);
    assert raw[a + i] == raw[a..a + |t|][i];
  }

  // ---------------------------------------------------------------------------
  // Password, referrer, username
  // ---------------------------------------------------------------------------

  /** The special characters of the password rule: `!@#$%^&*()_+-=[]{};':"\|,.<>/?`. */
  predicate IsSpecial(c: char) { c in "!@#$%^&*()_+-=[]{};':\"\\|,.<>/?" }

  predicate HasLower(s: string) { exists k :: 0 <= k < |s| && IsAsciiLower(s[k]) }

  predicate HasUpper(s: string) { exists k :: 0 <= k < |s| && IsAsciiUpper(s[k]) }

  predicate HasDigit(s: string) { exists k :: 0 <= k < |s| && IsDigit(s[k]) }

  predicate HasSpecial(s: string) { exists k :: 0 <= k < |s| && IsSpecial(s[k]) }

  /** The password policy, on the value exactly as typed. */
  predicate AcceptablePassword(p: string)
  {
    8 <= |p| <= 128 && HasLower(p) && HasUpper(p) && HasDigit(p) && HasSpecial(p)
  }

  /** The password check on the untrimmed value; the first failing rule wins: empty, shorter
      than 8, longer than 128, no lowercase letter, no uppercase letter, no digit, no special
      character. */
  function PasswordError(p: string): (e: Option<string>)
    ensures e.None? <==> AcceptablePassword(p)
    ensures |p| == 0 ==> e == Some("Password is required")
    ensures 0 < |p| < 8 ==> e == Some("Password must be at least 8 characters long")
    ensures |p| > 128 ==> e == Some("Password must be less than 128 characters")
    ensures 8 <= |p| <= 128 && !HasLower(p) ==> e == Some("Password must contain at least one lowercase letter")
    ensures 8 <= |p| <= 128 && HasLower(p) && !HasUpper(p) ==> e == Some("Password must contain at least one uppercase letter")
    ensures 8 <= |p| <= 128 && HasLower(p) && HasUpper(p) && !HasDigit(p) ==> e == Some("Password must contain at least one number")
    ensures 8 <= |p| <= 128 && HasLower(p) && HasUpper(p) && HasDigit(p) && !HasSpecial(p)
            ==> e == Some("Password must contain at least one special character")
  {
    if |p| == 0 then Some("Password is required")
    else if |p| < 8 then Some("Password must be at least 8 characters long")
    else if |p| > 128 then Some("Password must be less than 128 characters")
    else if !HasLower(p) then Some("Password must contain at least one lowercase letter")
    else if !HasUpper(p) then Some("Password must contain at least one uppercase letter")
    else if !HasDigit(p) then Some("Password must contain at least one number")
    else if !HasSpecial(p) then Some("Password must contain at least one special character")
    else None
  }

  /** A field that must not be blank after trimming. */
  function RequiredError(raw: string, message: string): (e: Option<string>)
    ensures e.None? <==> !AllWhitespace(raw)
    ensures e.Some? ==> e.value == message
  {
    if |Trim(raw)| == 0 then Some(message) else None
  }

  // ---------------------------------------------------------------------------
  // signup
  // ---------------------------------------------------------------------------

  datatype SignupForm = SignupForm(firstName: string, lastName: string, email: string,
                                   referrer: string, username: string, password: string)

  /** The record handed to `createUser`. */
  datatype NewUser = NewUser(firstName: string, lastName: string, email: string,
                             password: string, referrer: string, username: string)

  /** Names and username trimmed, the email trimmed and lower-cased, the referrer lower-cased
      but not trimmed, the password as typed. */
  function Normalise(form: SignupForm): (u: NewUser)
    ensures u.firstName == Trim(form.firstName) && u.lastName == Trim(form.lastName)
    ensures u.username == Trim(form.username) && u.password == form.password
    ensures u.email == ToLowerAscii(Trim(form.email)) && u.referrer == ToLowerAscii(form.referrer)
  {
    NewUser(Trim(form.firstName), Trim(form.lastName), ToLowerAscii(Trim(form.email)),
            form.password, ToLowerAscii(form.referrer), Trim(form.username))
  }

  /** The entries of the error record, one per form field. */
  datatype Field = FirstName | LastName | Email | Referrer | Username | Password

  /** `signup`: each field's rule fills its entry of `errors`; `createUser` gets the normalised
      form exactly when no entry was filled. */
  method Signup(form: SignupForm) returns (errors: map<Field, string>, created: Option<NewUser>)
    ensures (FirstName in errors <==> NameError(form.firstName, "First name").Some?)
            && (FirstName in errors ==> errors[FirstName] == NameError(form.firstName, "First name").value)
    ensures (LastName in errors <==> NameError(form.lastName, "Last name").Some?)
            && (LastName in errors ==> errors[LastName] == NameError(form.lastName, "Last name").value)
    ensures (Email in errors <==> EmailError(form.email).Some?)
            && (Email in errors ==> errors[Email] == EmailError(form.email).value)
    ensures (Referrer in errors <==> AllWhitespace(form.referrer))
            && (Referrer in errors ==> errors[Referrer] == "Referrer selection is required")
    ensures (Username in errors <==> AllWhitespace(form.username))
            && (Username in errors ==> errors[Username] == "username is required")
    ensures (Password in errors <==> PasswordError(form.password).Some?)
            && (Password in errors ==> errors[Password] == PasswordError(form.password).value)
    ensures created.Some? <==> errors == map[]
    ensures created.Some? ==> created.value == Normalise(form)
  {
    var first := NameError(form.firstName, "First name");
    var last := NameError(form.lastName, "Last name");
    var email := EmailError(form.email);
    var referrer := RequiredError(form.referrer, "Referrer selection is required");
    var username := RequiredError(form.username, "username is required");
    var password := PasswordError(form.password);
    errors := RecordErrors(first, last, email, referrer, username, password);
    if errors != map[] {
      created := None;
      return;
    }
    created := Some(Normalise(form));
  }

  /** The error record filled field by field from each rule's outcome. */
  method RecordErrors(first: Option<string>, last: Option<string>, email: Option<string>,
                      referrer: Option<string>, username: Option<string>, password: Option<string>)
    returns (errors: map<Field, string>)
    ensures (FirstName in errors <==> first.Some?) && (FirstName in errors ==> errors[FirstName] == first.value)
    ensures (LastName in errors <==> last.Some?) && (LastName in errors ==> errors[LastName] == last.value)
    ensures (Email in errors <==> email.Some?) && (Email in errors ==> errors[Email] == email.value)
    ensures (Referrer in errors <==> referrer.Some?) && (Referrer in errors ==> errors[Referrer] == referrer.value)
    ensures (Username in errors <==> username.Some?) && (Username in errors ==> errors[Username] == username.value)
    ensures (Password in errors <==> password.Some?) && (Password in errors ==> errors[Password] == password.value)
    ensures errors == map[] <==> first.None? && last.None? && email.None? && referrer.None? && username.None? && password.None?
  {
    errors := map[];
    if first.Some? { errors := errors[FirstName := first.value]; }
    if last.Some? { errors := errors[LastName := last.value]; }
    if email.Some? { errors := errors[Email := email.value]; }
    if referrer.Some? { errors := errors[Referrer := referrer.value]; }
    if username.Some? { errors := errors[Username := username.value]; }
    if password.Some? { errors := errors[Password := password.value]; }
  }

  /** The form is accepted exactly when every field passes its rule. */
  predicate Accepted(form: SignupForm)
  {
    NameError(form.firstName, "First name").None? && NameError(form.lastName, "Last name").None?
    && EmailError(form.email).None? && !AllWhitespace(form.referrer) && !AllWhitespace(form.username)
    && PasswordError(form.password).None?
  }

  /** What `createUser` receives from an accepted form meets the rules again: names of 2 to 50
      allowed characters with no surrounding whitespace, an address of the right shape with no
      uppercase letter, a non-blank username, and the password policy. */
  lemma {:induction false} NormalisedUserIsValid(form: SignupForm)
    requires Accepted(form)
    ensures var u := Normalise(form);
            && NameError(u.firstName, "First name").None? && NameError(u.lastName, "Last name").None?
            && u.firstName == Trim(u.firstName) && u.lastName == Trim(u.lastName)
            && EmailError(u.email).None? && u.email == Trim(u.email)
            && (forall k :: 0 <= k < |u.email| ==> !IsAsciiUpper(u.email[k]))
            && !AllWhitespace(u.username) && u.username == Trim(u.username)
            && !AllWhitespace(u.referrer)
            && AcceptablePassword(u.password)
  {
    var u := Normalise(form);
    TrimIdempotent(form.firstName);
    TrimIdempotent(form.lastName);
    TrimIdempotent(form.username);
    TrimIdempotent(form.email);
    var t := Trim(form.email);
    LowerKeepsTrimmed(t);
    LowerKeepsPattern(t);
    LowerKeepsBlankness(form.referrer);
  }

  /** Lower-casing neither makes nor unmakes whitespace, so a blank string stays blank and a
      non-blank one non-blank. */
  lemma LowerKeepsBlankness(s: string)
    ensures AllWhitespace(ToLowerAscii(s)) <==> AllWhitespace(s)
  {
    var r := ToLowerAscii(s);
    if AllWhitespace(r) {
      forall k | 0 <= k < |s| ensures IsJsWhitespace(s[k])
      {
        assert IsJsWhitespace(r[k]) && r[k] == LowerChar(s[k]);
      }
    }
    if AllWhitespace(s) {
      forall k | 0 <= k < |r| ensures IsJsWhitespace(r[k])
      {
        assert IsJsWhitespace(s[k]) && r[k] == LowerChar(s[k]);
      }
    }
  }

  /** Lower-casing a trimmed string keeps it trimmed. */
  lemma LowerKeepsTrimmed(t: string)
    requires Trim(t) == t
    ensures Trim(ToLowerAscii(t)) == ToLowerAscii(t)
  {
    var l := ToLowerAscii(t);
    if |t| > 0 {
      assert !IsJsWhitespace(t[0]) && !IsJsWhitespace(t[|t| - 1]);
      assert !IsJsWhitespace(l[0]) && !IsJsWhitespace(l[|l| - 1]);
      assert TrimStartIndex(l) == 0;
      assert TrimEndIndex(l) == |l|;
      assert l[0..|l|] == l;
    }
  }

  /** Lower-casing keeps the address shape: it changes no `@`, dot or whitespace. */
  lemma LowerKeepsPattern(t: string)
    requires MatchesEmailPattern(t)
    ensures MatchesEmailPattern(ToLowerAscii(t))
  {
    var i, j :| AddressAt(t, i, j);
    assert AddressAt(ToLowerAscii(t), i, j);
  }

  // ---------------------------------------------------------------------------
  // login
  // ---------------------------------------------------------------------------

  /** What `Login(username, password)` answers: the tokens on success, a `detail` otherwise. */
  datatype LoginReply = LoginReply(access: Option<string>, refresh: Option<string>, detail: Option<string>)

  datatype LoginOutcome = LoginFailed(errors: map<Field, string>) | StoreTokensAndRedirect(access: string, refresh: Option<string>)

  const LoginFailedMessage: string := "فشل تسجيل الدخول، تحقق من بياناتك."

  /** `login`: a reply without an access token gives an error keyed "email" carrying the
      backend's detail, or the default message when it is missing or empty; otherwise both
      tokens go to the cookies and the user is sent home. */
  function LoginResult(reply: LoginReply): (r: LoginOutcome)
    ensures r.LoginFailed? <==> reply.access.None? || reply.access.value == ""
    ensures r.LoginFailed? ==> r.errors.Keys == {Email}
    ensures r.LoginFailed? && reply.detail.Some? && reply.detail.value != "" ==> r.errors[Email] == reply.detail.value
    ensures r.LoginFailed? && (reply.detail.None? || reply.detail.value == "") ==> r.errors[Email] == LoginFailedMessage
    ensures r.StoreTokensAndRedirect? ==> r.access == reply.access.value && r.refresh == reply.refresh
  {
    if reply.access.None? || reply.access.value == "" then
      LoginFailed(map[Email := ControlBoard.FirstNonEmpty([reply.detail], LoginFailedMessage)])
    else StoreTokensAndRedirect(reply.access.value, reply.refresh)
  }

  // ---------------------------------------------------------------------------
  // Token validity
  // ---------------------------------------------------------------------------

  /** The result of `jwtDecode`: a failure, or a payload whose `exp` (NumericDate, seconds)
      may be absent. */
  datatype Decoded = Undecodable | Payload(exp: Option<int>)

  /** `isAccessTokenExpired`: a token that does not decode, lacks `exp` or has `exp` 0 is
      expired; otherwise it is expired when `exp` is strictly before now (`nowMs` is
      `Date.now()`, in milliseconds). */
  function IsAccessTokenExpired(token: Decoded, nowMs: int): (expired: bool)
    ensures token.Undecodable? || token.exp.None? || token.exp == Some(0) ==> expired
    ensures token.Payload? && token.exp.Some? && token.exp.value != 0 ==>
              (expired <==> token.exp.value * 1000 < nowMs)
  {
    match token
    case Undecodable => true
    case Payload(exp) =>
      if exp.None? || exp.value == 0 then true
      else exp.value * 1000 < nowMs
  }

  /** Section 4.1.4 of RFC 7519: the token must not be accepted on or after its `exp`. */
  predicate Rfc7519Expired(exp: int, nowMs: int) { nowMs >= exp * 1000 }

  /** The check agrees with RFC 7519 except at the very instant `exp`, where it still accepts
      the token. */
  lemma ExpiryVersusRfc7519(exp: int, nowMs: int)
    requires exp != 0
    ensures IsAccessTokenExpired(Payload(Some(exp)), nowMs) ==> Rfc7519Expired(exp, nowMs)
    ensures Rfc7519Expired(exp, nowMs) && nowMs != exp * 1000 ==> IsAccessTokenExpired(Payload(Some(exp)), nowMs)
    ensures !IsAccessTokenExpired(Payload(Some(exp)), exp * 1000) && Rfc7519Expired(exp, exp * 1000)
  {
  }

  /** The decision of `checkTokenValidity` and whether it tried a refresh. */
  datatype Validity = Validity(isValid: bool, refreshAttempted: bool)

  /** `checkTokenValidity`: no refresh cookie is invalid; a present, unexpired access token is
      valid; otherwise the outcome of the refresh decides. `access` is the decoded access
      cookie, if there is one; `refreshSucceeds` is what the refresh endpoint would do. */
  function CheckTokenValidity(access: Option<Decoded>, hasRefresh: bool, refreshSucceeds: bool,
                              nowMs: int): (v: Validity)
    ensures !hasRefresh ==> !v.isValid && !v.refreshAttempted
    ensures v.refreshAttempted <==> hasRefresh && (access.None? || IsAccessTokenExpired(access.value, nowMs))
    ensures v.isValid <==> hasRefresh && ((access.Some? && !IsAccessTokenExpired(access.value, nowMs)) || refreshSucceeds)
  {
    if !hasRefresh then Validity(false, false)
    else if access.Some? && !IsAccessTokenExpired(access.value, nowMs) then Validity(true, false)
    else Validity(refreshSucceeds, true)
  }

  /** A session whose access token is in date is valid whatever the refresh would do. */
  lemma FreshAccessNeedsNoRefresh(token: Decoded, nowMs: int, refreshSucceeds: bool)
    requires token.Payload? && token.exp.Some? && token.exp.value != 0 && nowMs <= token.exp.value * 1000
    ensures CheckTokenValidity(Some(token), true, refreshSucceeds, nowMs) == Validity(true, false)
  {
  }
}
