/** The sign-up screen: the ordered checks of the form, the error each failing check puts on
    its field, and the show-password toggles. The platform's e-mail pattern is the parameter
    `isEmail`. */
module SignupActivity {
  import opened Common

  datatype SignupCheck = FullNameRequired | EmailRequired | InvalidEmailFormat | PasswordTooShort
                       | PasswordsDoNotMatch
                       | CreateAccount(fullName: string, email: string, password: string)

  /** The `when` of `validateAndCreateAccount`: name and e-mail are trimmed, the passwords
      are taken as typed, and the first failing check decides. */
  function CheckSignup(nameInput: string, emailInput: string, password: string, confirm: string,
                       isEmail: string -> bool): (r: SignupCheck)
    ensures r.FullNameRequired? <==> AllWhitespace(nameInput)
    ensures r.EmailRequired? <==> !AllWhitespace(nameInput) && AllWhitespace(emailInput)
    ensures r.InvalidEmailFormat? <==> !AllWhitespace(nameInput) && !AllWhitespace(emailInput)
                                       && !isEmail(Trim(emailInput))
    ensures r.PasswordTooShort? <==> !AllWhitespace(nameInput) && !AllWhitespace(emailInput)
                                     && isEmail(Trim(emailInput)) && |password| < 6
    ensures r.PasswordsDoNotMatch? <==> !AllWhitespace(nameInput) && !AllWhitespace(emailInput)
                                        && isEmail(Trim(emailInput)) && |password| >= 6 && password != confirm
    ensures r.CreateAccount? <==> !AllWhitespace(nameInput) && !AllWhitespace(emailInput)
                                  && isEmail(Trim(emailInput)) && |password| >= 6 && password == confirm
    ensures r.CreateAccount? ==> r.fullName == Trim(nameInput) && r.email == Trim(emailInput)
                                 && r.password == password
  {
    var fullNameText, emailText := Trim(nameInput), Trim(emailInput);
    if |fullNameText| == 0 then FullNameRequired
    else if |emailText| == 0 then EmailRequired
    else if !isEmail(emailText) then InvalidEmailFormat
    else if |password| < 6 then PasswordTooShort
    else if password != confirm then PasswordsDoNotMatch
    else CreateAccount(fullNameText, emailText, password)
  }

  /** Whitespace around the name or the e-mail never changes the outcome (the passwords, in
      contrast, are compared as typed). */
  lemma CheckSignupIgnoresPadding(nameInput: string, emailInput: string, password: string,
                                  confirm: string, isEmail: string -> bool)
    ensures CheckSignup(Trim(nameInput), Trim(emailInput), password, confirm, isEmail)
            == CheckSignup(nameInput, emailInput, password, confirm, isEmail)
  {
    TrimIdempotent(nameInput);
    TrimIdempotent(emailInput);
    assert Trim(Trim(nameInput)) == Trim(nameInput);
    assert Trim(Trim(emailInput)) == Trim(emailInput);
  }

  /** The error messages of the form's fields. */
  const FullNameRequiredError: string := "Full name required"
  const EmailRequiredError: string := "Email required"
  const InvalidEmailFormatError: string := "Invalid email format"
  const PasswordTooShortError: string := "Password must be at least 6 characters"
  const PasswordsDoNotMatchError: string := "Passwords do not match"

  /** The error texts of the name, e-mail, password and confirmation fields. */
  datatype FormErrors = FormErrors(fullName: Option<string>, email: Option<string>,
                                   password: Option<string>, confirmPassword: Option<string>)

  /** The number of fields showing an error. */
  function ErrorCount(e: FormErrors): nat {
    (if e.fullName.Some? then 1 else 0) + (if e.email.Some? then 1 else 0)
    + (if e.password.Some? then 1 else 0) + (if e.confirmPassword.Some? then 1 else 0)
  }

  /** The errors the form shows after a check: only the field of the failing check, if any,
      shows its message, and none shows one exactly when the account is created. */
  function ErrorsFor(c: SignupCheck): (e: FormErrors)
    ensures ErrorCount(e) <= 1
    ensures ErrorCount(e) == 0 <==> c.CreateAccount?
    ensures e.fullName == (if c.FullNameRequired? then Some(FullNameRequiredError) else None)
    ensures e.email == (if c.EmailRequired? then Some(EmailRequiredError)
                        else if c.InvalidEmailFormat? then Some(InvalidEmailFormatError) else None)
    ensures e.password == (if c.PasswordTooShort? then Some(PasswordTooShortError) else None)
    ensures e.confirmPassword == (if c.PasswordsDoNotMatch? then Some(PasswordsDoNotMatchError) else None)
  {
    var none := FormErrors(None, None, None, None);
    match c
    case FullNameRequired => none.(fullName := Some(FullNameRequiredError))
    case EmailRequired => none.(email := Some(EmailRequiredError))
    case InvalidEmailFormat => none.(email := Some(InvalidEmailFormatError))
    case PasswordTooShort => none.(password := Some(PasswordTooShortError))
    case PasswordsDoNotMatch => none.(confirmPassword := Some(PasswordsDoNotMatchError))
    case CreateAccount(_, _, _) => none
  }

  /** The sign-up form's error texts and show-password state. */
  class SignupScreen {
    var errors: FormErrors
    var passwordVisible: bool
    var confirmPasswordVisible: bool
    /** Whether each password field's input type is the visible-password variation. */
    var passwordShownAsText: bool
    var confirmPasswordShownAsText: bool

    /** Each field shows its password as text exactly while its flag is set. */
    predicate Valid()
      reads this
    {
      passwordShownAsText == passwordVisible && confirmPasswordShownAsText == confirmPasswordVisible
    }

    constructor ()
      ensures errors == FormErrors(None, None, None, None)
      ensures !passwordVisible && !confirmPasswordVisible && Valid()
    {
      errors := FormErrors(None, None, None, None);
      passwordVisible, confirmPasswordVisible := false, false;
      passwordShownAsText, confirmPasswordShownAsText := false, false;
    }

    /** A tap on a field's eye icon: only that field's flag flips, and its input type follows. */
    method TogglePassword(isMainPassword: bool)
      requires Valid()
      modifies this
      ensures isMainPassword ==> passwordVisible == !old(passwordVisible)
                                 && confirmPasswordVisible == old(confirmPasswordVisible)
      ensures !isMainPassword ==> confirmPasswordVisible == !old(confirmPasswordVisible)
                                  && passwordVisible == old(passwordVisible)
      ensures errors == old(errors)
      ensures Valid()
    {
      if isMainPassword {
        passwordVisible := !passwordVisible;
        passwordShownAsText := passwordVisible;
      } else {
        confirmPasswordVisible := !confirmPasswordVisible;
        confirmPasswordShownAsText := confirmPasswordVisible;
      }
    }

    /** `validateAndCreateAccount`: all four errors are cleared, then the first failing check
        puts its message on its field; the account data is returned only when every check
        passes. The password toggles are untouched. */
    method ValidateAndCreateAccount(nameInput: string, emailInput: string, password: string,
                                    confirm: string, isEmail: string -> bool)
      returns (account: Option<(string, string, string)>)
      modifies this
      ensures errors == ErrorsFor(CheckSignup(nameInput, emailInput, password, confirm, isEmail))
      ensures var c := CheckSignup(nameInput, emailInput, password, confirm, isEmail);
              (account.Some? <==> c.CreateAccount?)
              && (account.Some? ==> account.value == (c.fullName, c.email, c.password))
      ensures passwordVisible == old(passwordVisible) && confirmPasswordVisible == old(confirmPasswordVisible)
      ensures passwordShownAsText == old(passwordShownAsText)
      ensures confirmPasswordShownAsText == old(confirmPasswordShownAsText)
    {
      errors := FormErrors(None, None, None, None);
      var c := CheckSignup(nameInput, emailInput, password, confirm, isEmail);
      errors := ErrorsFor(c);
      if c.CreateAccount? {
        account := Some((c.fullName, c.email, c.password));
      } else {
        account := None;
      }
    }
  }
}
