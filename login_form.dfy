/** The client-side checks of the login form, `src/components/LoginForm.jsx`. */
module LoginForm {
  import Strings
  import Forms
  import RegisterForm

  datatype Input = Email | Password

  const EmailRequired: string := "Email jest wymagany"
  const EmailFormat: string := "Nieprawidłowy format email"
  const PasswordRequired: string := "Hasło jest wymagane"
  const PasswordTooShort: string := "Hasło musi mieć minimum 6 znaków"

  /** A login form that passes: an email the pattern accepts and a password of at least
      six UTF-16 code units. */
  predicate Accepted(form: map<Input, string>)
    requires Email in form && Password in form
  {
    form[Email] != "" && Forms.ValidateEmail(form[Email])
    && form[Password] != "" && Strings.Utf16Length(form[Password]) >= 6
  }

  /** `validateForm`: unlike the registration form, the email is required as typed, not
      trimmed; the form passes exactly when no message was set. */
  method ValidateForm(formData: map<Input, string>) returns (newErrors: map<Input, string>, valid: bool)
    requires Email in formData && Password in formData
    ensures Email in newErrors <==> formData[Email] == "" || !Forms.ValidateEmail(formData[Email])
    ensures Email in newErrors ==>
              newErrors[Email] == if formData[Email] == "" then EmailRequired else EmailFormat
    ensures Password in newErrors <==> formData[Password] == "" || Strings.Utf16Length(formData[Password]) < 6
    ensures Password in newErrors ==>
              newErrors[Password] == if formData[Password] == "" then PasswordRequired else PasswordTooShort
    ensures valid <==> newErrors == map[]
    ensures valid <==> Accepted(formData)
  {
    newErrors := map[];
    newErrors := Forms.Check(newErrors, Email, formData[Email] == "", !Forms.ValidateEmail(formData[Email]),
                             EmailRequired, EmailFormat);
    newErrors := Forms.Check(newErrors, Password, formData[Password] == "",
                             Strings.Utf16Length(formData[Password]) < 6, PasswordRequired, PasswordTooShort);
    valid := newErrors == map[];
    if Accepted(formData) {
      assert forall g: Input :: g !in newErrors;
    }
  }

  /** Whoever got through the registration form can type the same email and password
      into the login form and pass its checks. */
  lemma RegisteredCanLogIn(form: map<RegisterForm.Input, string>)
    requires forall f: RegisterForm.Input :: f in form
    requires RegisterForm.Accepted(form)
    ensures Accepted(map[Email := form[RegisterForm.Email], Password := form[RegisterForm.Password]])
  {
  }
}
