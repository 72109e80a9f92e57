/**
 * The password-reset page reached from the e-mailed link: a new password, its
 * confirmation, and the `token` query parameter passed through to the reset action.
 */
module ResetPassword {
  import opened Common
  import opened FormRules

  datatype Field = Password | ConfirmPassword

  datatype FormData = FormData(password: string, confirmPassword: string)

  datatype Errors = Errors(password: string, confirmPassword: string)

  /** The fields sent to the reset action. */
  datatype Payload = Payload(token: string, password: string, newPassword: string)

  const BlankForm := FormData("", "")
  const NoErrors := Errors("", "")

  /** `searchParams.get("token") || undefined`: a missing or empty parameter is no token. */
  function TokenOf(param: Option<string>): (token: Option<string>)
    ensures token.Some? <==> param.Some? && param.value != ""
    ensures token.Some? ==> token == param
  {
    if param.Some? && param.value != "" then param else None
  }

  /** `token?.toString() || ""`. */
  function TokenText(token: Option<string>): (text: string)
    ensures token.Some? ==> text == token.value
    ensures token.None? ==> text == ""
  {
    if token.Some? then token.value else ""
  }

  /** The text sent is the query parameter itself, or "" when there is none. */
  lemma TokenTextOfParam(param: Option<string>)
    ensures TokenText(TokenOf(param)) == if param.Some? then param.value else ""
  {
  }

  function ValueOf(f: FormData, field: Field): string
  {
    match field
    case Password => f.password
    case ConfirmPassword => f.confirmPassword
  }

  function ErrorOf(e: Errors, field: Field): string
  {
    match field
    case Password => e.password
    case ConfirmPassword => e.confirmPassword
  }

  /** `{ ...prev, [name]: value }` on the field values. */
  function WithValue(f: FormData, field: Field, value: string): (r: FormData)
    ensures ValueOf(r, field) == value
    ensures forall g :: g != field ==> ValueOf(r, g) == ValueOf(f, g)
  {
    match field
    case Password => f.(password := value)
    case ConfirmPassword => f.(confirmPassword := value)
  }

  /** `{ ...prev, [name]: "" }` on the errors. */
  function WithoutError(e: Errors, field: Field): (r: Errors)
    ensures ErrorOf(r, field) == ""
    ensures forall g :: g != field ==> ErrorOf(r, g) == ErrorOf(e, g)
  {
    match field
    case Password => e.(password := "")
    case ConfirmPassword => e.(confirmPassword := "")
  }

  /** Both validators; the confirmation is compared with the password field. */
  function Validate(f: FormData): (e: Errors)
    ensures e == NoErrors <==> StrongPassword(f.password) && f.confirmPassword == f.password
  {
    Errors(ValidateResetPassword(f.password), ValidateConfirmPassword(f.confirmPassword, f.password))
  }

  class PasswordResetForm {
    const token: Option<string>
    var formData: FormData
    var errors: Errors

    constructor(tokenParam: Option<string>)
      ensures token == TokenOf(tokenParam)
      ensures formData == BlankForm && errors == NoErrors
    {
      token := TokenOf(tokenParam);
      formData := BlankForm;
      errors := NoErrors;
    }

    /** Typing into an input: that field takes the value and loses its error. */
    method HandleChange(field: Field, value: string)
      modifies this
      ensures formData == WithValue(old(formData), field, value)
      ensures errors == WithoutError(old(errors), field)
    {
      formData := WithValue(formData, field, value);
      errors := WithoutError(errors, field);
    }

    /** The check marks under the password field. */
    function PasswordChecklist(): (marks: seq<bool>)
      reads this
      ensures |marks| == 5
      ensures (forall i :: 0 <= i < 5 ==> marks[i]) <==> StrongPassword(formData.password)
    {
      RequirementListsComplete();
      Checklist(ResetRequirements, formData.password)
    }

    /**
     * Submitting: both errors are replaced and, only when both are empty, the reset
     * action receives the token, the password and its (equal) confirmation.
     */
    method HandleSubmit() returns (payload: Option<Payload>)
      modifies this
      ensures errors == Validate(formData)
      ensures payload.Some? <==> StrongPassword(formData.password) && formData.confirmPassword == formData.password
      ensures payload.Some? ==> payload.value == Payload(TokenText(token), formData.password, formData.confirmPassword)
      ensures payload.Some? ==> payload.value.newPassword == payload.value.password
      ensures formData == old(formData)
    {
      var passwordError := ValidateResetPassword(formData.password);
      var confirmPasswordError := ValidateConfirmPassword(formData.confirmPassword, formData.password);
      errors := Errors(passwordError, confirmPasswordError);
      if passwordError == "" && confirmPasswordError == "" {
        payload := Some(Payload(TokenText(token), formData.password, formData.confirmPassword));
      } else {
        payload := None;
      }
    }
  }
}
