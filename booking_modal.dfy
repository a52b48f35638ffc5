/** The client-side checks of the booking dialog, `src/components/BookingModal.jsx`. */
module BookingModal {
  import Strings
  import Forms

  datatype Input = Name | Email | Phone | Notes

  const NameRequired: string := "Imię i nazwisko jest wymagane"
  const EmailRequired: string := "Email jest wymagany"
  const EmailFormat: string := "Nieprawidłowy format email"
  const PhoneRequired: string := "Numer telefonu jest wymagany"

  /** A dialog that passes: a name, a phone number of any form, and an email the pattern
      accepts; the notes are free. */
  predicate Accepted(form: map<Input, string>)
    requires Name in form && Email in form && Phone in form
  {
    !Strings.IsBlank(form[Name]) && !Strings.IsBlank(form[Email]) && Forms.ValidateEmail(form[Email])
    && !Strings.IsBlank(form[Phone])
  }

  /** `validateForm`: name and phone are only required, the email is required and then
      matched against the pattern as typed; the notes never get a message. */
  method ValidateForm(formData: map<Input, string>) returns (newErrors: map<Input, string>, valid: bool)
    requires Name in formData && Email in formData && Phone in formData
    ensures Name in newErrors <==> Strings.IsBlank(formData[Name])
    ensures Name in newErrors ==> newErrors[Name] == NameRequired
    ensures Email in newErrors <==> Strings.IsBlank(formData[Email]) || !Forms.ValidateEmail(formData[Email])
    ensures Email in newErrors ==>
              newErrors[Email] == if Strings.IsBlank(formData[Email]) then EmailRequired else EmailFormat
    ensures Phone in newErrors <==> Strings.IsBlank(formData[Phone])
    ensures Phone in newErrors ==> newErrors[Phone] == PhoneRequired
    ensures Notes !in newErrors
    ensures valid <==> newErrors == map[]
    ensures valid <==> Accepted(formData)
  {
    newErrors := map[];
    newErrors := Forms.Check(newErrors, Name, Strings.IsBlank(formData[Name]), false, NameRequired, "");
    newErrors := Forms.Check(newErrors, Email, Strings.IsBlank(formData[Email]), !Forms.ValidateEmail(formData[Email]),
                             EmailRequired, EmailFormat);
    newErrors := Forms.Check(newErrors, Phone, Strings.IsBlank(formData[Phone]), false, PhoneRequired, "");
    valid := newErrors == map[];
    if Accepted(formData) {
      assert forall g: Input :: g !in newErrors;
    }
  }

  /** The email of a dialog that passes is one the pattern
      `/^[^\s@]+@[^\s@]+\.[^\s@]+$/` matches. */
  lemma AcceptedEmailMatches(form: map<Input, string>)
    requires Name in form && Email in form && Phone in form
    requires Accepted(form)
    ensures Forms.EmailPattern(form[Email])
  {
    Forms.EmailIff(form[Email]);
  }
}
