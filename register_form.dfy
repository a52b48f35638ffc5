/** The client-side checks of the registration form, `src/components/RegisterForm.jsx`. */
module RegisterForm {
  import opened Options
  import Strings
  import Forms
  import Booking

  datatype Input = FirstName | LastName | Phone | Email | Password | ConfirmPassword

  const FirstNameRequired: string := "Imię jest wymagane"
  const LastNameRequired: string := "Nazwisko jest wymagane"
  const PhoneRequired: string := "Numer telefonu jest wymagany"
  const PhoneFormat: string := "Nieprawidłowy format numeru telefonu"
  const EmailRequired: string := "Email jest wymagany"
  const EmailFormat: string := "Nieprawidłowy format email"
  const PasswordRequired: string := "Hasło jest wymagane"
  const PasswordTooShort: string := "Hasło musi mieć minimum 6 znaków"
  const ConfirmRequired: string := "Potwierdzenie hasła jest wymagane"
  const PasswordsDiffer: string := "Hasła nie są identyczne"

  /** `validatePhone`: with white space removed, 9 to 15 ASCII digits. */
  predicate ValidatePhone(phone: string)
  {
    var digits := Strings.RemoveSpaces(phone);
    9 <= |digits| <= 15 && forall k :: 0 <= k < |digits| ==> Strings.IsDigit(digits[k])
  }

  /** `validatePassword`: at least six UTF-16 code units. */
  predicate ValidatePassword(password: string)
  {
    Strings.Utf16Length(password) >= 6
  }

  /** Every field of a form that passes: names and phone not blank, a valid phone and
      email, a password of at least six units and the same password repeated. */
  predicate Accepted(form: map<Input, string>)
    requires forall f: Input :: f in form
  {
    && !Strings.IsBlank(form[FirstName])
    && !Strings.IsBlank(form[LastName])
    && !Strings.IsBlank(form[Phone]) && ValidatePhone(form[Phone])
    && !Strings.IsBlank(form[Email]) && Forms.ValidateEmail(form[Email])
    && form[Password] != "" && ValidatePassword(form[Password])
    && form[ConfirmPassword] != "" && form[Password] == form[ConfirmPassword]
  }

  /** `validateForm`: one message per failing field, a missing value taking precedence
      over a malformed one; the form passes exactly when no message was set. */
  method ValidateForm(formData: map<Input, string>) returns (newErrors: map<Input, string>, valid: bool)
    requires forall f: Input :: f in formData
    ensures FirstName in newErrors <==> Strings.IsBlank(formData[FirstName])
    ensures FirstName in newErrors ==> newErrors[FirstName] == FirstNameRequired
    ensures LastName in newErrors <==> Strings.IsBlank(formData[LastName])
    ensures LastName in newErrors ==> newErrors[LastName] == LastNameRequired
    ensures Phone in newErrors <==> Strings.IsBlank(formData[Phone]) || !ValidatePhone(formData[Phone])
    ensures Phone in newErrors ==>
              newErrors[Phone] == if Strings.IsBlank(formData[Phone]) then PhoneRequired else PhoneFormat
    ensures Email in newErrors <==> Strings.IsBlank(formData[Email]) || !Forms.ValidateEmail(formData[Email])
    ensures Email in newErrors ==>
              newErrors[Email] == if Strings.IsBlank(formData[Email]) then EmailRequired else EmailFormat
    ensures Password in newErrors <==> formData[Password] == "" || !ValidatePassword(formData[Password])
    ensures Password in newErrors ==>
              newErrors[Password] == if formData[Password] == "" then PasswordRequired else PasswordTooShort
    ensures ConfirmPassword in newErrors <==>
              formData[ConfirmPassword] == "" || formData[Password] != formData[ConfirmPassword]
    ensures ConfirmPassword in newErrors ==>
              newErrors[ConfirmPassword] == if formData[ConfirmPassword] == "" then ConfirmRequired else PasswordsDiffer
    ensures valid <==> newErrors == map[]
    ensures valid <==> Accepted(formData)
  {
    newErrors := map[];
    newErrors := Forms.Check(newErrors, FirstName, Strings.IsBlank(formData[FirstName]), false, FirstNameRequired, "");
    newErrors := Forms.Check(newErrors, LastName, Strings.IsBlank(formData[LastName]), false, LastNameRequired, "");
    newErrors := Forms.Check(newErrors, Phone, Strings.IsBlank(formData[Phone]), !ValidatePhone(formData[Phone]),
                             PhoneRequired, PhoneFormat);
    newErrors := Forms.Check(newErrors, Email, Strings.IsBlank(formData[Email]), !Forms.ValidateEmail(formData[Email]),
                             EmailRequired, EmailFormat);
    newErrors := Forms.Check(newErrors, Password, formData[Password] == "", !ValidatePassword(formData[Password]),
                             PasswordRequired, PasswordTooShort);
    newErrors := Forms.Check(newErrors, ConfirmPassword, formData[ConfirmPassword] == "",
                             formData[Password] != formData[ConfirmPassword], ConfirmRequired, PasswordsDiffer);
    valid := newErrors == map[];
    if Accepted(formData) {
      assert forall g: Input :: g !in newErrors;
    }
  }

  /** A form that passes these checks never meets the server's missing-field reply
      (`POST /api/register`): the server either creates the account or reports the
      email taken. */
  lemma AcceptedPassesServer(form: map<Input, string>, t: Booking.Tables, passwordHash: string)
    requires forall f: Input :: f in form
    requires Accepted(form)
    ensures Booking.Register(t, Booking.Given(form[FirstName]), Booking.Given(form[LastName]),
                             Booking.Given(form[Phone]), Booking.Given(form[Email]),
                             Booking.Given(form[Password]), passwordHash).status in {Booking.OK, Booking.Conflict}
  {
  }
}
