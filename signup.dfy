/** The sign-up form: two checks in order, then an approval message and
    an emptied form. */
module Signup {

  const FillAllMessage := "Please fill all fields."
  const MismatchMessage := "Passwords do not match."
  const SentMessage := "Signup request sent! Wait for admin approval."

  /** The first check a submission fails, if any. */
  datatype Verdict = MissingField | Mismatch | Accepted

  function Check(username: string, email: string, password: string, confirm: string): (v: Verdict)
    ensures v == MissingField <==> username == "" || email == "" || password == "" || confirm == ""
    ensures v == Mismatch <==> username != "" && email != "" && password != "" && confirm != "" && password != confirm
    ensures v == Accepted ==> password == confirm && password != ""
  {
    if username == "" || email == "" || password == "" || confirm == "" then MissingField
    else if password != confirm then Mismatch
    else Accepted
  }

  /** Two empty passwords are reported as missing, never as accepted. */
  lemma EmptyMatchingPasswordsMissing(username: string, email: string)
    ensures Check(username, email, "", "") == MissingField
  {
  }

  class SignupPage {
    var username: string
    var email: string
    var password: string
    var confirm: string
    var error: string
    var success: string

    constructor()
      ensures username == "" && email == "" && password == "" && confirm == ""
      ensures error == "" && success == ""
    {
      username, email, password, confirm := "", "", "", "";
      error, success := "", "";
    }

    /** `handleSignup`: both messages are cleared, then exactly one is set.
        A rejected submission keeps the fields; an accepted one empties
        them. */
    method HandleSignup()
      modifies this
      ensures (error == "") != (success == "")
      ensures Check(old(username), old(email), old(password), old(confirm)) == MissingField ==>
                error == FillAllMessage
      ensures Check(old(username), old(email), old(password), old(confirm)) == Mismatch ==>
                error == MismatchMessage
      ensures Check(old(username), old(email), old(password), old(confirm)) != Accepted ==>
                success == "" &&
                username == old(username) && email == old(email) &&
                password == old(password) && confirm == old(confirm)
      ensures Check(old(username), old(email), old(password), old(confirm)) == Accepted ==>
                error == "" && success == SentMessage &&
                username == "" && email == "" && password == "" && confirm == ""
    {
      error := "";
      success := "";
      if username == "" || email == "" || password == "" || confirm == "" {
        error := FillAllMessage;
        return;
      }
      if password != confirm {
        error := MismatchMessage;
        return;
      }
      success := SentMessage;
      username, email, password, confirm := "", "", "", "";
    }
  }
}
