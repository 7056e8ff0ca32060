/** The sign-in screen: the check of the form, the password-reset guard, where a sign-in
    leads, and the start-up forwarding that mirrors the home screen's bounce-back. The
    platform's e-mail pattern is the parameter `isEmail`. */
module LoginActivity {
  import opened Common
  import opened Records
  import opened SignupActivity

  const EnterValidEmail: string := "Enter a valid email"
  const EnterPassword: string := "Enter your password"

  /** `isValid`: the message shown for the first failing check, or None when the form passes:
      the e-mail must be nonempty and well formed, then the password nonempty. */
  function Validate(email: string, password: string, isEmail: string -> bool): (r: Option<string>)
    ensures r.None? <==> email != [] && isEmail(email) && password != []
    ensures r == Some(EnterValidEmail) <==> email == [] || !isEmail(email)
    ensures r == Some(EnterPassword) <==> email != [] && isEmail(email) && password == []
  {
    if email == [] || !isEmail(email) then Some(EnterValidEmail)
    else if password == [] then Some(EnterPassword)
    else None
  }

  /** `isValid` itself. */
  predicate IsValid(email: string, password: string, isEmail: string -> bool)
    ensures IsValid(email, password, isEmail) <==> email != [] && isEmail(email) && password != []
  {
    Validate(email, password, isEmail).None?
  }

  /** The login button, as written: both fields are trimmed, and the trimmed values are
      signed in with when they pass `isValid`. */
  function LoginCredentials(emailInput: string, passwordInput: string, isEmail: string -> bool)
    : (r: Option<(string, string)>)
    ensures r.Some? <==> IsValid(Trim(emailInput), Trim(passwordInput), isEmail)
    ensures r.Some? ==> r.value == (Trim(emailInput), Trim(passwordInput))
                        && r.value.0 != [] && isEmail(r.value.0) && r.value.1 != []
  {
    var email, password := Trim(emailInput), Trim(passwordInput);
    if IsValid(email, password, isEmail) then Some((email, password)) else None
  }

  /** Sign-up stores the password as typed, but the login button trims it: when the password
      starts or ends with whitespace, retyping the sign-up inputs never submits the credentials
      the account was created with. */
  lemma LoginAltersPassword(nameInput: string, emailInput: string, password: string, isEmail: string -> bool)
    requires CheckSignup(nameInput, emailInput, password, password, isEmail).CreateAccount?
    requires IsWhitespace(password[0]) || IsWhitespace(password[|password| - 1])
    ensures var c := CheckSignup(nameInput, emailInput, password, password, isEmail);
            LoginCredentials(emailInput, password, isEmail) != Some((c.email, c.password))
  {
    var t := Trim(password);
    assert t != password by {
      if t != [] { assert !IsWhitespace(t[0]) && !IsWhitespace(t[|t| - 1]); }
    }
  }

  /** Such a password exists: six characters, the first a space. */
  lemma LeadingSpacePasswordAccepted()
    ensures CheckSignup("Ann", "ann@example.org", " secret", " secret", _ => true).CreateAccount?
  {
    assert !AllWhitespace("Ann") by { assert !IsWhitespace("Ann"[0]); }
    assert !AllWhitespace("ann@example.org") by { assert !IsWhitespace("ann@example.org"[0]); }
  }

  /** The login button with the password taken as typed, as sign-up and the change-password
      dialog take it. */
  function LoginCredentialsCorrected(emailInput: string, password: string, isEmail: string -> bool)
    : (r: Option<(string, string)>)
    ensures r.Some? <==> IsValid(Trim(emailInput), password, isEmail)
    ensures r.Some? ==> r.value == (Trim(emailInput), password)
                        && r.value.0 != [] && isEmail(r.value.0) && r.value.1 != []
  {
    var email := Trim(emailInput);
    if IsValid(email, password, isEmail) then Some((email, password)) else None
  }

  /** With the password taken as typed, the e-mail and password an account was created with
      are exactly what the login button submits when the same inputs are typed again. */
  lemma SignupThenLogin(nameInput: string, emailInput: string, password: string, isEmail: string -> bool)
    requires CheckSignup(nameInput, emailInput, password, password, isEmail).CreateAccount?
    ensures var c := CheckSignup(nameInput, emailInput, password, password, isEmail);
            LoginCredentialsCorrected(emailInput, password, isEmail) == Some((c.email, c.password))
  {
  }

  /** The forgot-password link: a reset is requested only for a nonempty, well-formed
      trimmed e-mail, and for that address. */
  function ResetEmail(emailInput: string, isEmail: string -> bool): (r: Option<string>)
    ensures r.Some? <==> !AllWhitespace(emailInput) && isEmail(Trim(emailInput))
    ensures r.Some? ==> r.value == Trim(emailInput)
  {
    var email := Trim(emailInput);
    if email == [] || !isEmail(email) then None else Some(email)
  }

  /** A reset is requested exactly for the addresses the login button would accept with some
      password. */
  lemma ResetMatchesLoginEmail(emailInput: string, passwordInput: string, isEmail: string -> bool)
    ensures LoginCredentials(emailInput, passwordInput, isEmail).Some? ==>
              ResetEmail(emailInput, isEmail) == Some(LoginCredentials(emailInput, passwordInput, isEmail).value.0)
    ensures ResetEmail(emailInput, isEmail).None? ==> LoginCredentials(emailInput, passwordInput, isEmail).None?
  {
  }

  /** Where a finished sign-in attempt leads. */
  datatype SignInOutcome = GoHome | AskToVerify | ShowLoginFailed

  /** `signIn`'s completion: home for a verified user, the verification dialog for any other
      successful sign-in, and an error otherwise. */
  function SignInDecision(successful: bool, user: Option<AuthUser>): (r: SignInOutcome)
    ensures r == GoHome <==> successful && user.Some? && user.value.isEmailVerified
    ensures r == ShowLoginFailed <==> !successful
  {
    if !successful then ShowLoginFailed
    else if user.Some? && user.value.isEmailVerified then GoHome
    else AskToVerify
  }

  /** `onStart` of the sign-in screen: forward to home when a verified user is signed in. */
  predicate OnStartForwards(user: Option<AuthUser>) {
    user.Some? && user.value.isEmailVerified
  }

  /** `onStart` of the home screen: back to sign-in when nobody, or an unverified user, is
      signed in. */
  predicate HomeBouncesToLogin(user: Option<AuthUser>) {
    user.None? || !user.value.isEmailVerified
  }

  /** The two screens agree: for every user state exactly one of them keeps the user, so
      neither forwarding loops and a verified session always ends at home. */
  lemma StartForwardingComplement(user: Option<AuthUser>)
    ensures OnStartForwards(user) <==> !HomeBouncesToLogin(user)
    ensures OnStartForwards(user) <==> SignInDecision(true, user) == GoHome
  {
  }
}
