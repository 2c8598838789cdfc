/** Server-side validation of the name/email form (`submit`). */
module WebForm {
  import opened Wrappers
  import opened PyStr

  const AllFieldsRequired := "Error: All fields are required!"
  const InvalidEmailAddress := "Error: Invalid email address!"

  /** What `submit` answers: one of the two error texts, or the confirmation page for the
      submitted name and email. */
  datatype Outcome = Error(message: string) | Submitted(name: string, email: string)

  /** `submit` on the values of the form fields `name` and `email` (None when a field is
      missing). Exactly one outcome occurs; the presence check on both fields comes before the
      check for an '@' in the email, and the name is only checked for being non-empty. */
  function Submit(name: Option<string>, email: Option<string>): (r: Outcome)
    ensures r == Error(AllFieldsRequired) <==> !Truthy(name) || !Truthy(email)
    ensures r == Error(InvalidEmailAddress) <==> Truthy(name) && Truthy(email) && '@' !in email.value
    ensures r.Submitted? <==> Truthy(name) && Truthy(email) && '@' in email.value
    ensures r.Submitted? ==> r.name == name.value && r.email == email.value
  {
    if !Truthy(name) || !Truthy(email) then Error(AllFieldsRequired)
    else if '@' !in email.value then Error(InvalidEmailAddress)
    else Submitted(name.value, email.value)
  }

  /** Any two non-empty names are treated alike: the outcome then depends on the email only. */
  lemma NameOnlyCheckedForPresence(name1: string, name2: string, email: Option<string>)
    requires name1 != "" && name2 != ""
    ensures Submit(Some(name1), email).Error? == Submit(Some(name2), email).Error?
    ensures Submit(Some(name1), email).Error? ==> Submit(Some(name1), email) == Submit(Some(name2), email)
  {
  }
}
