/** The admin sign-in server action (src/app/admin/login-action.ts): the form's
    checks, the credentials handed to the authentication service, and the
    mapping of its answer to the message the login page shows. The service is
    a function parameter. */
module LoginAction {
  import opened Str

  datatype Credentials = Credentials(email: string, password: string)

  /** What signing in answered: an error with its message, a session with
      or without user data, or an exception. */
  datatype SignIn = Rejected(message: string) | Answered(hasUser: bool) | Threw

  datatype LoginResult = Failure(error: string) | Success(redirectPath: string)

  const Required: string := "Email and password are required"
  const BadEmail: string := "Please enter a valid email address"
  const BadCredentials: string := "Invalid email or password"
  const SignInFailed: string := "Login failed. Please try again."
  const NoUser: string := "Login failed. No user data received."
  const Unexpected: string := "An unexpected error occurred. Please try again."
  const AdminPath: string := "/admin"

  /** `email.trim().toLowerCase()`. */
  function NormalizeEmail(email: string): string {
    LowerStr(Trim(email))
  }

  /** The form's checks (login-action.ts:17-22) and the credentials signed
      in with (23-26): a missing or empty field first, then an email without
      an `@`, judged on the email as typed. */
  function Validate(email: Option<string>, password: Option<string>): Result {
    if !Truthy(email) || !Truthy(password) then Invalid(Required)
    else if !Contains(email.value, "@") then Invalid(BadEmail)
    else Valid(Credentials(NormalizeEmail(email.value), password.value))
  }

  datatype Result = Invalid(message: string) | Valid(credentials: Credentials)

  /** The page's answer for what signing in gave (login-action.ts:27-44). */
  function Respond(answer: SignIn): LoginResult {
    match answer
    case Rejected(message) =>
      Failure(if message == "Invalid login credentials" then BadCredentials else SignInFailed)
    case Answered(hasUser) => if hasUser then Success(AdminPath) else Failure(NoUser)
    case Threw => Failure(Unexpected)
  }

  /** `login` (login-action.ts:11-46). `clientThrows` is whether creating the
      server client failed; `signIn` is the authentication service. */
  function Login(clientThrows: bool, email: Option<string>, password: Option<string>,
                 signIn: Credentials -> SignIn): LoginResult {
    if clientThrows then Failure(Unexpected)
    else match Validate(email, password)
      case Invalid(message) => Failure(message)
      case Valid(c) => Respond(signIn(c))
  }

  /** A missing field is reported before a malformed email, and neither
      reaches the service: the answer does not depend on it. */
  lemma LoginChecks(email: Option<string>, password: Option<string>, signIn: Credentials -> SignIn,
                    other: Credentials -> SignIn)
    ensures Login(false, email, password, signIn) == Failure(Required) <==> !Truthy(email) || !Truthy(password)
    ensures Login(false, email, password, signIn) == Failure(BadEmail) <==>
      Truthy(email) && Truthy(password) && !Contains(email.value, "@")
    ensures Validate(email, password).Invalid? ==>
      Login(false, email, password, signIn) == Login(false, email, password, other)
  {
  }

  /** The service is asked once the form passes, with the normalised email
      and the password exactly as typed, and its answer decides the result. */
  lemma LoginAsks(email: Option<string>, password: Option<string>, signIn: Credentials -> SignIn)
    requires Truthy(email) && Truthy(password) && Contains(email.value, "@")
    ensures Login(false, email, password, signIn) ==
      Respond(signIn(Credentials(NormalizeEmail(email.value), password.value)))
  {
  }

  /** Sign-in succeeds, and sends the admin to `/admin`, exactly when the
      client was created, the form passes and the service returned a user. */
  lemma LoginSuccess(clientThrows: bool, email: Option<string>, password: Option<string>,
                     signIn: Credentials -> SignIn)
    ensures Login(clientThrows, email, password, signIn).Success? <==>
      && !clientThrows && Truthy(email) && Truthy(password) && Contains(email.value, "@")
      && signIn(Credentials(NormalizeEmail(email.value), password.value)) == Answered(true)
    ensures Login(clientThrows, email, password, signIn).Success? ==>
      Login(clientThrows, email, password, signIn).redirectPath == AdminPath
  {
  }

  /** Only the service's own wording for wrong credentials is shown as such;
      every other service error becomes the generic message. */
  lemma RespondMessages(answer: SignIn)
    ensures Respond(answer) == Failure(BadCredentials) <==> answer == Rejected("Invalid login credentials")
    ensures Respond(answer) == Failure(SignInFailed) <==>
      answer.Rejected? && answer.message != "Invalid login credentials"
    ensures Respond(answer) == Failure(NoUser) <==> answer == Answered(false)
    ensures Respond(answer) == Failure(Unexpected) <==> answer == Threw
  {
  }

  /** The normalised email has no whitespace at either end and no
      upper-case ASCII letter. */
  lemma NormalizeEmailSpec(email: string)
    ensures var n := NormalizeEmail(email);
      && (n != [] ==> !IsSpace(n[0]) && !IsSpace(n[|n| - 1]))
      && (forall i :: 0 <= i < |n| ==> !('A' <= n[i] <= 'Z'))
  {
  }

  /** An `@` of the typed email survives normalisation, so the service
      is never asked with an email the form would have refused. */
  lemma NormalizeEmailKeepsAt(email: string)
    requires Contains(email, "@")
    ensures Contains(NormalizeEmail(email), "@")
  {
    var t := Trim(email);
    var k: nat :| k + 1 <= |email| && HasAt(email, k, "@");
    assert email[k] == '@' by {
      assert email[k..k + 1][0] == email[k];
    }
    var a := LeadLen(email);
    assert a <= k;
    assert k < a + |t| by {
      assert IsBlank(email[a + |t|..]);
    }
    assert t[k - a] == '@';
    var n := LowerStr(t);
    assert n[k - a..k - a + 1] == "@";
    assert HasAt(n, k - a, "@");
  }

  /** Normalising twice changes nothing more. */
  lemma NormalizeEmailIdempotent(email: string)
    ensures NormalizeEmail(NormalizeEmail(email)) == NormalizeEmail(email)
  {
    var n := NormalizeEmail(email);
    NormalizeEmailSpec(email);
    TrimNoEdges(n);
    assert LowerStr(n) == n;
  }

  /** A text without whitespace at either end is its own trim. */
  lemma TrimNoEdges(s: string)
    requires s != [] ==> !IsSpace(s[0]) && !IsSpace(s[|s| - 1])
    ensures Trim(s) == s
  {
    if s != [] {
      assert LeadLen(s) == 0;
      assert s[0..] == s;
      assert TrailLen(s) == 0;
    }
  }
}
