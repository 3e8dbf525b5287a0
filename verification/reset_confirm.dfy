/** The password-reset confirmation page (src/app/auth/reset-password/confirm/page.tsx): three
    checks in a fixed order before the reset request is sent, and how the reply is shown. The
    request itself goes to a remote server, so its reply is an input. */
module ResetConfirm {
  import opened Optional

  const MissingTokenError := "Invalid or missing reset token. Please try requesting a new password reset."
  const MismatchError := "Passwords do not match"
  const TooShortError := "Password must be at least 6 characters long"
  const FailedError := "Failed to reset password. Please try again."
  const UnexpectedError := "An unexpected error occurred. Please try again."

  /** The shortest accepted password. */
  const MinPasswordLength := 6

  /** The reply of the reset request: the request or its JSON body threw, or the parsed
      `{ success, error }`, where an absent error is the empty text. */
  datatype Reply = Threw | Result(success: bool, error: string)

  /** The form's React state. */
  datatype Form = Form(newPassword: string, confirmPassword: string, error: Option<string>,
                       success: bool, loading: bool)

  /** `!token`: the query parameter is absent or empty. */
  predicate NoToken(token: Option<string>) {
    token.None? || token.value == ""
  }

  /** The first failing check of `handleSubmit`, if any: token, then match, then length. */
  function Check(token: Option<string>, newPassword: string, confirmPassword: string): (e: Option<string>)
    ensures e.None? <==> !NoToken(token) && newPassword == confirmPassword && |newPassword| >= MinPasswordLength
    ensures NoToken(token) ==> e == Some(MissingTokenError)
    ensures !NoToken(token) && newPassword != confirmPassword ==> e == Some(MismatchError)
    ensures !NoToken(token) && newPassword == confirmPassword && |newPassword| < MinPasswordLength ==>
      e == Some(TooShortError)
  {
    if NoToken(token) then Some(MissingTokenError)
    else if newPassword != confirmPassword then Some(MismatchError)
    else if |newPassword| < MinPasswordLength then Some(TooShortError)
    else None
  }

  /** `handleSubmit`: returns the new form and whether the request was sent. A failed check
      only sets its error. A successful reset clears both password fields; a refused one shows
      the server's error, or the default text when there is none; a thrown request shows the
      generic error. Loading is over in every case. */
  function Submit(f: Form, token: Option<string>, reply: Reply): (r: (Form, bool))
    ensures r.1 <==> Check(token, f.newPassword, f.confirmPassword).None?
    ensures !r.1 ==> r.0 == f.(error := Check(token, f.newPassword, f.confirmPassword))
    ensures r.1 && reply.Result? && reply.success ==>
      r.0.success && r.0.newPassword == "" && r.0.confirmPassword == "" && r.0.error.None?
    ensures r.1 && reply.Result? && !reply.success ==>
      r.0.error == Some(if reply.error == "" then FailedError else reply.error) && r.0.newPassword == f.newPassword
    ensures r.1 && reply.Threw? ==> r.0.error == Some(UnexpectedError) && r.0.newPassword == f.newPassword
    ensures r.1 ==> !r.0.loading
  {
    match Check(token, f.newPassword, f.confirmPassword)
    case Some(e) => (f.(error := Some(e)), false)
    case None =>
      var sent := f.(error := None);
      match reply
      case Threw => (sent.(error := Some(UnexpectedError), loading := false), true)
      case Result(ok, message) =>
        if ok then (sent.(success := true, newPassword := "", confirmPassword := "", loading := false), true)
        else (sent.(error := Some(if message == "" then FailedError else message), loading := false), true)
  }

  /** A refused submission keeps what was typed, so submitting again is refused with the same
      error and sends nothing. */
  lemma RefusalIsStable(f: Form, token: Option<string>, reply: Reply, reply2: Reply)
    requires !Submit(f, token, reply).1
    ensures Submit(Submit(f, token, reply).0, token, reply2) == Submit(f, token, reply)
  {
  }

  /** The confirm field's helper text: shown while the two passwords differ and the confirm
      field is not empty. */
  function HelperText(newPassword: string, confirmPassword: string): (t: string)
    ensures t != "" <==> newPassword != confirmPassword && confirmPassword != ""
    ensures t != "" ==> t == MismatchError
  {
    if newPassword != confirmPassword && confirmPassword != "" then MismatchError else ""
  }

  /** Whenever the helper text shows, submitting is refused, with the same text unless the token
      is missing. */
  lemma HelperTextPredictsRefusal(f: Form, token: Option<string>, reply: Reply)
    requires HelperText(f.newPassword, f.confirmPassword) != ""
    ensures !Submit(f, token, reply).1
    ensures !NoToken(token) ==> Submit(f, token, reply).0.error == Some(HelperText(f.newPassword, f.confirmPassword))
  {
  }
}
