/**
 * The sign-in page: a login form, a "forgot password" form and a "reset e-mail sent"
 * panel, one of which is shown at a time, over a single record of field values and a
 * record of error messages.
 */
module SignIn {
  import opened Common
  import opened FormRules

  datatype View = Login | ForgotPassword | ResetSent

  /** The text inputs `handleChange` serves, by their `name` attribute. */
  datatype Field = Email | Password | ResetEmail

  datatype FormData = FormData(email: string, password: string, remember: bool, resetEmail: string)

  datatype Errors = Errors(email: string, password: string, resetEmail: string)

  /** What the login form hands to the sign-in action. */
  datatype Credentials = Credentials(email: string, password: string)

  const BlankForm := FormData("", "", false, "")
  const NoErrors := Errors("", "", "")

  function ValueOf(f: FormData, field: Field): string
  {
    match field
    case Email => f.email
    case Password => f.password
    case ResetEmail => f.resetEmail
  }

  function ErrorOf(e: Errors, field: Field): string
  {
    match field
    case Email => e.email
    case Password => e.password
    case ResetEmail => e.resetEmail
  }

  /** `{ ...prev, [name]: value }` on the field values. */
  function WithValue(f: FormData, field: Field, value: string): (r: FormData)
    ensures ValueOf(r, field) == value
    ensures forall g :: g != field ==> ValueOf(r, g) == ValueOf(f, g)
    ensures r.remember == f.remember
  {
    match field
    case Email => f.(email := value)
    case Password => f.(password := value)
    case ResetEmail => f.(resetEmail := value)
  }

  /** `{ ...prev, [name]: "" }` on the errors. */
  function WithoutError(e: Errors, field: Field): (r: Errors)
    ensures ErrorOf(r, field) == ""
    ensures forall g :: g != field ==> ErrorOf(r, g) == ErrorOf(e, g)
  {
    match field
    case Email => e.(email := "")
    case Password => e.(password := "")
    case ResetEmail => e.(resetEmail := "")
  }

  /** The seconds the "resend" button stays disabled after a reset e-mail is requested. */
  const ResendDelay := 45

  class SignInForm {
    var view: View
    var formData: FormData
    var errors: Errors
    var countDown: int

    constructor()
      ensures view == Login && formData == BlankForm && errors == NoErrors && countDown == 0
    {
      view := Login;
      formData := BlankForm;
      errors := NoErrors;
      countDown := 0;
    }

    /** Typing into a text input: that field takes the value and loses its error. */
    method HandleChange(field: Field, value: string)
      modifies this
      ensures formData == WithValue(old(formData), field, value)
      ensures errors == WithoutError(old(errors), field)
      ensures view == old(view) && countDown == old(countDown)
    {
      formData := WithValue(formData, field, value);
      errors := WithoutError(errors, field);
    }

    method HandleRememberChange(checked: bool)
      modifies this
      ensures formData == old(formData).(remember := checked)
      ensures errors == old(errors) && view == old(view) && countDown == old(countDown)
    {
      formData := formData.(remember := checked);
    }

    /**
     * Submitting the login form: both errors are recomputed, the reset-e-mail error is
     * kept, and the credentials go to the sign-in action only when both are empty.
     */
    method HandleSubmit() returns (request: Option<Credentials>)
      modifies this
      ensures errors == old(errors).(email := ValidateEmail(formData.email),
                                     password := ValidateSignInPassword(formData.password))
      ensures request.Some? <==> EmailRegexMatches(formData.email) && |formData.password| >= 8
      ensures request.Some? ==> request.value == Credentials(formData.email, formData.password)
      ensures formData == old(formData) && view == old(view) && countDown == old(countDown)
    {
      var emailError := ValidateEmail(formData.email);
      var passwordError := ValidateSignInPassword(formData.password);
      errors := errors.(email := emailError, password := passwordError);
      if emailError == "" && passwordError == "" {
        request := Some(Credentials(formData.email, formData.password));
      } else {
        request := None;
      }
    }

    /**
     * Submitting the "forgot password" form: the reset address is validated; a valid
     * one is sent, the "sent" panel is shown and the resend delay starts.
     */
    method HandleResetSubmit() returns (sent: Option<string>)
      modifies this
      ensures errors == old(errors).(resetEmail := ValidateEmail(formData.resetEmail))
      ensures sent.Some? <==> EmailRegexMatches(formData.resetEmail)
      ensures sent.Some? ==> sent.value == formData.resetEmail && view == ResetSent && countDown == ResendDelay
      ensures sent.None? ==> view == old(view) && countDown == old(countDown)
      ensures formData == old(formData)
    {
      var resetEmailError := ValidateEmail(formData.resetEmail);
      errors := errors.(resetEmail := resetEmailError);
      if resetEmailError == "" {
        sent := Some(formData.resetEmail);
        view := ResetSent;
        countDown := ResendDelay;
      } else {
        sent := None;
      }
    }

    /** The "forgot password" link: the login address, when there is one, is carried over. */
    method GoToForgotPassword()
      modifies this
      ensures view == ForgotPassword
      ensures old(formData).email != "" ==> formData == old(formData).(resetEmail := old(formData).email)
      ensures old(formData).email == "" ==> formData == old(formData)
      ensures errors == old(errors) && countDown == old(countDown)
    {
      view := ForgotPassword;
      if formData.email != "" {
        formData := formData.(resetEmail := formData.email);
      }
    }

    method GoToLogin()
      modifies this
      ensures view == Login
      ensures formData == old(formData) && errors == old(errors) && countDown == old(countDown)
    {
      view := Login;
    }

    /**
     * The "resend" button, enabled once the delay has run out. It clears the reset
     * address and then runs the reset submission with the values it was rendered with,
     * so the old address is validated and sent while the field ends up empty.
     */
    method Resend() returns (sent: Option<string>)
      requires countDown <= 0
      modifies this
      ensures formData == old(formData).(resetEmail := "")
      ensures errors == old(errors).(resetEmail := ValidateEmail(old(formData).resetEmail))
      ensures sent.Some? <==> EmailRegexMatches(old(formData).resetEmail)
      ensures sent.Some? ==> sent.value == old(formData).resetEmail && view == ResetSent && countDown == ResendDelay
      ensures sent.None? ==> view == old(view) && countDown == old(countDown)
    {
      var address := formData.resetEmail;
      var resetEmailError := ValidateEmail(address);
      formData := formData.(resetEmail := "");
      errors := errors.(resetEmail := resetEmailError);
      if resetEmailError == "" {
        sent := Some(address);
        view := ResetSent;
        countDown := ResendDelay;
      } else {
        sent := None;
      }
    }
  }
}
