/** The login form's only check: both fields must be non-blank. */
module Login {
  import opened Text

  /** Whether the login form accepts the email and password as typed. */
  function Accepts(email: string, password: string): (ok: bool)
    ensures ok <==>
      && (exists i :: 0 <= i < |email| && !IsSpace(email[i]))
      && (exists i :: 0 <= i < |password| && !IsSpace(password[i]))
  {
    Trim(email) != [] && Trim(password) != []
  }
}
