/** The demo email/password login: required-field checks, normalisation of the email (trim,
    lower-case), lookup in the fixed four-entry credential table and an exact password
    comparison, with one error message per way of failing. */
module AuthService {
  import opened Optional
  import opened JsStrings

  datatype Role = SuperAdmin | ClinicAdmin | RegularUser

  /** A user record of the credential table. `createdAt` is the time the table was built,
      which the model takes as the parameter `loadedAt`. */
  datatype User = User(
    id: string,
    name: string,
    email: string,
    role: Role,
    clinicId: Option<string>,
    avatar: string,
    createdAt: string)

  datatype Credential = Credential(password: string, user: User)

  /** The outcome of `loginWithEmail`: the resolved response (`success: true`, a token and the
      user) or the message of the error it throws. */
  datatype LoginResult = Success(token: string, user: User) | Err(message: string)

  const EMAIL_REQUIRED := "Email is required"
  const PASSWORD_REQUIRED := "Password is required"
  const INVALID_EMAIL := "Invalid email address"
  const INVALID_PASSWORD := "Invalid password"

  /** `staticCredentials`, keyed by the four lower-case demo emails. */
  function StaticCredentials(loadedAt: string): (t: map<string, Credential>)
    ensures t.Keys == {"admin@neurosense360.com", "clinic@demo.com", "user@demo.com", "test@test.com"}
  {
    map[
      "admin@neurosense360.com" := Credential("admin123", User("admin-1", "Super Admin",
        "admin@neurosense360.com", SuperAdmin, None, Avatar("Super+Admin", "dc2626"), loadedAt)),
      "clinic@demo.com" := Credential("clinic123", User("clinic-1", "Demo Clinic Admin",
        "clinic@demo.com", ClinicAdmin, Some("demo-clinic-id"), Avatar("Clinic+Admin", "2563eb"), loadedAt)),
      "user@demo.com" := Credential("user123", User("user-1", "Demo User",
        "user@demo.com", RegularUser, None, Avatar("Demo+User", "059669"), loadedAt)),
      "test@test.com" := Credential("test123", User("test-1", "Test User",
        "test@test.com", RegularUser, None, Avatar("Test+User", "ff6b6b"), loadedAt))
    ]
  }

  /** The avatar address of a demo user: the ui-avatars.com image for the name, on the given
      background colour, in white. */
  function Avatar(name: string, background: string): string {
    "https://ui-avatars.com/api/?name=" + name + "&background=" + background + "&color=fff"
  }

  /** Each entry is filed under its user's email, no password is empty, and only the clinic
      admin is tied to a clinic. */
  lemma StaticCredentialsShape(loadedAt: string)
    ensures var t := StaticCredentials(loadedAt);
      KeyedByEmail(t) && (forall k :: k in t ==> t[k].password != "") &&
      (forall k :: k in t ==> (t[k].user.clinicId.Some? <==> t[k].user.role == ClinicAdmin))
  {
  }

  // ---- Normalisation --------------------------------------------------------------------

  /** `email.trim().toLowerCase()`: the trimmed email up to case, without capitals, and without
      white space at either end. */
  function Normalize(email: string): (r: string)
    ensures SameUpToCase(r, Trim(email)) && NoCapitals(r)
    ensures |r| == 0 || (!IsJsSpace(r[0]) && !IsJsSpace(r[|r| - 1]))
  {
    var t := Trim(email);
    var r := ToLower(t);
    if |r| == 0 then r
    else
      SpaceIgnoresCase(r[0], t[0]);
      SpaceIgnoresCase(r[|r| - 1], t[|t| - 1]);
      r
  }

  /** Emails that differ only in letter case normalise to the same key. */
  lemma NormalizeIgnoresCase(a: string, b: string)
    requires SameUpToCase(a, b)
    ensures Normalize(a) == Normalize(b)
  {
    TrimKeepsSameUpToCase(a, b);
    ToLowerIgnoresCase(Trim(a), Trim(b));
  }

  /** Surrounding white space does not change the normalised key. */
  lemma NormalizeIgnoresPadding(p: string, e: string, q: string)
    requires AllIn(p, IsJsSpace) && AllIn(q, IsJsSpace)
    ensures Normalize(p + e + q) == Normalize(e)
  {
    TrimIgnoresPadding(p, e, q);
  }

  // ---- Login ------------------------------------------------------------------------------

  /** `!value` for a string argument that may be missing: missing or empty. */
  predicate Falsy(v: Option<string>) {
    v.None? || v.value == ""
  }

  /** The credential check of `loginWithEmail` over the table `credentials` (the object's
      `staticCredentials`), with the own-key lookup the table is meant to offer. `token`
      stands for the generated `static_token_<time>` value. */
  function LoginWithEmail(credentials: map<string, Credential>, email: Option<string>, password: Option<string>,
                          token: string): (r: LoginResult)
    ensures Falsy(email) ==> r == Err(EMAIL_REQUIRED)
    ensures !Falsy(email) && Falsy(password) ==> r == Err(PASSWORD_REQUIRED)
    ensures !Falsy(email) && !Falsy(password) ==>
      var key := Normalize(email.value);
      (key !in credentials ==> r == Err(INVALID_EMAIL)) &&
      (key in credentials && credentials[key].password != password.value ==> r == Err(INVALID_PASSWORD)) &&
      (key in credentials && credentials[key].password == password.value ==>
        r == Success(token, credentials[key].user))
  {
    if Falsy(email) then Err(EMAIL_REQUIRED)
    else if Falsy(password) then Err(PASSWORD_REQUIRED)
    else
      var key := Normalize(email.value);
      if key in credentials then
        var cred := credentials[key];
        if cred.password == password.value then Success(token, cred.user) else Err(INVALID_PASSWORD)
      else
        Err(INVALID_EMAIL)
  }

  /** Each entry of the table is filed under its user's email. */
  predicate KeyedByEmail(credentials: map<string, Credential>) {
    forall k :: k in credentials ==> credentials[k].user.email == k
  }

  /** A login succeeds exactly for a stored email (after normalisation) with its exact
      password, and the user it returns is the one filed under that email. */
  lemma LoginSucceedsIff(credentials: map<string, Credential>, email: Option<string>, password: Option<string>,
                         token: string)
    requires KeyedByEmail(credentials)
    ensures var r := LoginWithEmail(credentials, email, password, token);
      r.Success? <==>
        email.Some? && email.value != "" && password.Some? && password.value != "" &&
        Normalize(email.value) in credentials && credentials[Normalize(email.value)].password == password.value
    ensures var r := LoginWithEmail(credentials, email, password, token);
      r.Success? ==>
        r.token == token && r.user.email == Normalize(email.value) && r.user == credentials[r.user.email].user
  {
  }

  /** Emails that differ only in surrounding white space or letter case give the same outcome. */
  lemma LoginIgnoresEmailForm(credentials: map<string, Credential>, e1: string, e2: string, p: string, q: string,
                              password: Option<string>, token: string)
    requires e1 != "" && AllIn(p, IsJsSpace) && AllIn(q, IsJsSpace) && SameUpToCase(e1, e2)
    ensures LoginWithEmail(credentials, Some(p + e1 + q), password, token)
         == LoginWithEmail(credentials, Some(e2), password, token)
  {
    NormalizeIgnoresPadding(p, e1, q);
    NormalizeIgnoresCase(e1, e2);
  }

  /** A string without capital letters or surrounding white space is its own key. */
  lemma NormalizeOfKey(s: string)
    requires |s| == 0 || (!IsJsSpace(s[0]) && !IsJsSpace(s[|s| - 1]))
    requires forall i :: 0 <= i < |s| ==> !('A' <= s[i] <= 'Z')
    ensures Normalize(s) == s
  {
    TrimOfTrimmed(s);
    ToLowerUnique(s, s);
  }

  lemma AdminKeyNormalized()
    ensures Normalize("admin@neurosense360.com") == "admin@neurosense360.com"
  {
    NormalizeOfKey("admin@neurosense360.com");
  }

  lemma ClinicKeyNormalized()
    ensures Normalize("clinic@demo.com") == "clinic@demo.com"
  {
    NormalizeOfKey("clinic@demo.com");
  }

  lemma UserKeyNormalized()
    ensures Normalize("user@demo.com") == "user@demo.com"
  {
    NormalizeOfKey("user@demo.com");
  }

  lemma TestKeyNormalized()
    ensures Normalize("test@test.com") == "test@test.com"
  {
    NormalizeOfKey("test@test.com");
  }

  /** Each demo user logs in with the stored email and password, and gets their own record. */
  lemma DemoLoginsSucceed(loadedAt: string, token: string)
    ensures forall k :: k in StaticCredentials(loadedAt) ==>
      LoginWithEmail(StaticCredentials(loadedAt), Some(k), Some(StaticCredentials(loadedAt)[k].password), token)
        == Success(token, StaticCredentials(loadedAt)[k].user)
  {
    StaticCredentialsShape(loadedAt);
    DemoKeysLogIn(StaticCredentials(loadedAt), token);
  }

  /** Any table filed under the four demo emails, with non-empty passwords, lets each of
      them log in with its stored password. */
  lemma DemoKeysLogIn(credentials: map<string, Credential>, token: string)
    requires credentials.Keys == {"admin@neurosense360.com", "clinic@demo.com", "user@demo.com", "test@test.com"}
    requires forall k :: k in credentials ==> credentials[k].password != ""
    ensures forall k :: k in credentials ==>
      LoginWithEmail(credentials, Some(k), Some(credentials[k].password), token) == Success(token, credentials[k].user)
  {
    AdminKeyNormalized();
    ClinicKeyNormalized();
    UserKeyNormalized();
    TestKeyNormalized();
    forall k | k in credentials
      ensures Normalize(k) == k && k != ""
    {
      assert k in credentials.Keys;
    }
    OwnKeysLogIn(credentials, token);
  }

  /** In a table whose keys are their own normal forms and whose passwords are non-empty,
      every key logs in with its stored password. */
  lemma OwnKeysLogIn(credentials: map<string, Credential>, token: string)
    requires forall k :: k in credentials ==> Normalize(k) == k && k != "" && credentials[k].password != ""
    ensures forall k :: k in credentials ==>
      LoginWithEmail(credentials, Some(k), Some(credentials[k].password), token) == Success(token, credentials[k].user)
  {
  }

  /** The password, unlike the email, is compared exactly: a password that differs from the
      accepted one, by padding or by letter case or otherwise, is rejected. */
  lemma PasswordComparedExactly(credentials: map<string, Credential>, email: Option<string>, password: string,
                                other: string, token: string)
    requires LoginWithEmail(credentials, email, Some(password), token).Success?
    requires other != "" && other != password
    ensures LoginWithEmail(credentials, email, Some(other), token) == Err(INVALID_PASSWORD)
  {
  }

  // ---- The lookup as written ----------------------------------------------------------------

  /** The property names every plain object inherits from `Object.prototype`. */
  const OBJECT_PROTOTYPE_KEYS: set<string> := {
    "constructor", "__proto__", "hasOwnProperty", "isPrototypeOf", "propertyIsEnumerable",
    "toString", "valueOf", "toLocaleString",
    "__defineGetter__", "__defineSetter__", "__lookupGetter__", "__lookupSetter__"
  }

  /** What `staticCredentials[key]` yields: an own entry, an inherited member of
      `Object.prototype` (a function or the prototype object, truthy and without a
      `password`), or `undefined`. */
  datatype Property = OwnEntry(cred: Credential) | InheritedMember

  function PropertyLookup(credentials: map<string, Credential>, key: string): (r: Option<Property>)
    ensures r.None? <==> key !in credentials && key !in OBJECT_PROTOTYPE_KEYS
    ensures key in credentials ==> r == Some(OwnEntry(credentials[key]))
    ensures key !in credentials && key in OBJECT_PROTOTYPE_KEYS ==> r == Some(InheritedMember)
  {
    if key in credentials then Some(OwnEntry(credentials[key]))
    else if key in OBJECT_PROTOTYPE_KEYS then Some(InheritedMember)
    else None
  }

  /** `loginWithEmail` as written: the bracket lookup finds inherited members too, and an
      inherited member's missing `password` never equals the (non-empty) password given. */
  function LoginAsWritten(credentials: map<string, Credential>, email: Option<string>, password: Option<string>,
                          token: string): (r: LoginResult)
    ensures (!Falsy(email) && !Falsy(password) && Normalize(email.value) in OBJECT_PROTOTYPE_KEYS &&
             Normalize(email.value) !in credentials) ==> r == Err(INVALID_PASSWORD)
  {
    if Falsy(email) then Err(EMAIL_REQUIRED)
    else if Falsy(password) then Err(PASSWORD_REQUIRED)
    else
      match PropertyLookup(credentials, Normalize(email.value))
      case None => Err(INVALID_EMAIL)
      case Some(InheritedMember) => Err(INVALID_PASSWORD)
      case Some(OwnEntry(cred)) =>
        if cred.password == password.value then Success(token, cred.user) else Err(INVALID_PASSWORD)
  }

  /** The lookup as written and the own-key lookup agree on every email except those that
      normalise to an inherited property name. */
  lemma AsWrittenAgreesOffPrototype(credentials: map<string, Credential>, email: Option<string>,
                                    password: Option<string>, token: string)
    requires email.Some? ==> Normalize(email.value) !in OBJECT_PROTOTYPE_KEYS
    ensures LoginAsWritten(credentials, email, password, token) == LoginWithEmail(credentials, email, password, token)
  {
  }

  lemma NormalizeConstructor()
    ensures Normalize("constructor") == "constructor"
  {
    NormalizeOfKey("constructor");
  }

  lemma NormalizePaddedProto()
    ensures Normalize(" " + "__PROTO__" + " ") == "__proto__"
  {
    TrimOfTrimmed("__PROTO__");
    var lower := ToLower("__PROTO__");
    forall i | 0 <= i < 9 ensures lower[i] == "__proto__"[i] {
      assert lower[i] == LowerChar("__PROTO__"[i]);
    }
    assert lower == "__proto__";
    assert AllIn(" ", IsJsSpace) by {
      assert IsJsSpace(' ');
    }
    NormalizeIgnoresPadding(" ", "__PROTO__", " ");
  }

  /** An email that is not a key but normalises to an inherited property name is reported
      as a wrong password by the lookup as written, and as unknown by the corrected one. */
  lemma PrototypeKeyMisreported(credentials: map<string, Credential>, email: string, password: string,
                                token: string)
    requires email != "" && password != ""
    requires Normalize(email) in OBJECT_PROTOTYPE_KEYS && Normalize(email) !in credentials
    ensures LoginAsWritten(credentials, Some(email), Some(password), token) == Err(INVALID_PASSWORD)
    ensures LoginWithEmail(credentials, Some(email), Some(password), token) == Err(INVALID_EMAIL)
  {
  }

  /** With the demo table, the email "constructor" is unknown, yet the lookup as written
      reports a wrong password for it instead of an unknown email; so does " " + "__PROTO__" + " ". */
  lemma PrototypeEmailReportsWrongPassword(token: string, loadedAt: string)
    ensures LoginAsWritten(StaticCredentials(loadedAt), Some("constructor"), Some("secret"), token)
         == Err(INVALID_PASSWORD)
    ensures LoginWithEmail(StaticCredentials(loadedAt), Some("constructor"), Some("secret"), token)
         == Err(INVALID_EMAIL)
    ensures LoginAsWritten(StaticCredentials(loadedAt), Some(" " + "__PROTO__" + " "), Some("secret"), token)
         == Err(INVALID_PASSWORD)
    ensures LoginWithEmail(StaticCredentials(loadedAt), Some(" " + "__PROTO__" + " "), Some("secret"), token)
         == Err(INVALID_EMAIL)
  {
    NormalizeConstructor();
    NormalizePaddedProto();
    var table := StaticCredentials(loadedAt);
    assert forall k :: k in table.Keys ==> |k| >= 13;
    assert |"constructor"| == 11 && |"__proto__"| == 9;
    PrototypeKeyMisreported(table, "constructor", "secret", token);
    PrototypeKeyMisreported(table, " " + "__PROTO__" + " ", "secret", token);
  }
}
