/** The sign-up page: name, e-mail and password with the password checklist. */
module SignUp {
  import opened Common
  import opened FormRules

  datatype Field = Name | Email | Password

  datatype FormData = FormData(name: string, email: string, password: string)

  datatype Errors = Errors(name: string, email: string, password: string)

  const BlankForm := FormData("", "", "")
  const NoErrors := Errors("", "", "")

  function ValueOf(f: FormData, field: Field): string
  {
    match field
    case Name => f.name
    case Email => f.email
    case Password => f.password
  }

  function ErrorOf(e: Errors, field: Field): string
  {
    match field
    case Name => e.name
    case Email => e.email
    case Password => e.password
  }

  /** `{ ...prev, [name]: value }` on the field values. */
  function WithValue(f: FormData, field: Field, value: string): (r: FormData)
    ensures ValueOf(r, field) == value
    ensures forall g :: g != field ==> ValueOf(r, g) == ValueOf(f, g)
  {
    match field
    case Name => f.(name := value)
    case Email => f.(email := value)
    case Password => f.(password := value)
  }

  /** `{ ...prev, [name]: "" }` on the errors. */
  function WithoutError(e: Errors, field: Field): (r: Errors)
    ensures ErrorOf(r, field) == ""
    ensures forall g :: g != field ==> ErrorOf(r, g) == ErrorOf(e, g)
  {
    match field
    case Name => e.(name := "")
    case Email => e.(email := "")
    case Password => e.(password := "")
  }

  /** The three validators in the order the form runs them. */
  function Validate(f: FormData): (e: Errors)
    ensures e == NoErrors <==> f.name != "" && EmailRegexMatches(f.email) && StrongPassword(f.password)
  {
    Errors(ValidateName(f.name), ValidateEmail(f.email), ValidateSignUpPassword(f.password))
  }

  class SignUpForm {
    var formData: FormData
    var errors: Errors

    constructor()
      ensures formData == BlankForm && errors == NoErrors
    {
      formData := BlankForm;
      errors := NoErrors;
    }

    /** Typing into an input: that field takes the value and loses its error. */
    method HandleChange(field: Field, value: string)
      modifies this
      ensures formData == WithValue(old(formData), field, value)
      ensures errors == WithoutError(old(errors), field)
    {
      formData := WithValue(formData, field, value);
      errors := WithoutError(errors, field);
    }

    /** The check marks under the password field. */
    function PasswordChecklist(): (marks: seq<bool>)
      reads this
      ensures |marks| == 5
      ensures (forall i :: 0 <= i < 5 ==> marks[i]) <==> StrongPassword(formData.password)
    {
      RequirementListsComplete();
      Checklist(SignUpRequirements, formData.password)
    }

    /**
     * Submitting: all three errors are replaced by fresh results and the form values
     * go to the sign-up action only when every one of them is empty.
     */
    method HandleSubmit() returns (request: Option<FormData>)
      modifies this
      ensures errors == Validate(formData)
      ensures request.Some? <==>
        formData.name != "" && EmailRegexMatches(formData.email) && StrongPassword(formData.password)
      ensures request.Some? ==> request.value == formData
      ensures formData == old(formData)
    {
      var nameError := ValidateName(formData.name);
      var emailError := ValidateEmail(formData.email);
      var passwordError := ValidateSignUpPassword(formData.password);
      errors := Errors(nameError, emailError, passwordError);
      if nameError == "" && emailError == "" && passwordError == "" {
        request := Some(formData);
      } else {
        request := None;
      }
    }
  }
}
