/** The sign-in page's form logic (src/pages/Auth.jsx): the two modes, the
    field update, and what submitting does before and after the
    authentication call, whose result is a parameter. */
module Auth {

  import opened Options

  datatype Mode = SignIn | SignUp

  /** The link under the form flips the mode. */
  function ToggleMode(m: Mode): (r: Mode)
    ensures r != m
  {
    if m == SignUp then SignIn else SignUp
  }

  datatype Form = Form(name: string, email: string, password: string)

  /** The inputs' ids. */
  datatype Field = Name | Email | Password

  /** `handleInputChange`: only the field named by the input's id changes. */
  function InputChange(f: Form, id: Field, value: string): (r: Form)
    ensures id == Name ==> r == f.(name := value)
    ensures id == Email ==> r == f.(email := value)
    ensures id == Password ==> r == f.(password := value)
  {
    match id
    case Name => f.(name := value)
    case Email => f.(email := value)
    case Password => f.(password := value)
  }

  const MinPasswordLength: nat := 6

  /** The message the form refuses with before any call, if any. */
  function Precheck(m: Mode, f: Form): (r: Option<string>)
    ensures m == SignUp && (f.name == [] || f.email == [] || f.password == []) ==> r == Some("Please fill in all fields")
    ensures m == SignUp && f.name != [] && f.email != [] && f.password != [] ==>
      (r.Some? <==> |f.password| < MinPasswordLength)
    ensures r.Some? && m == SignUp && f.name != [] && f.email != [] && f.password != [] ==>
      r == Some("Password must be at least 6 characters")
    ensures m == SignIn ==> (r.Some? <==> f.email == [] || f.password == [])
    ensures m == SignIn && r.Some? ==> r == Some("Please fill in all fields")
  {
    if m == SignUp then
      if f.name == [] || f.email == [] || f.password == [] then Some("Please fill in all fields")
      else if |f.password| < MinPasswordLength then Some("Password must be at least 6 characters")
      else None
    else if f.email == [] || f.password == [] then Some("Please fill in all fields")
    else None
  }

  /** What the store's sign-in or sign-up resolved to. */
  datatype AuthResult = AuthResult(success: bool, error: string)

  /** What submitting did: whether the authentication call was made,
      whether it navigated home, and the error shown, if any. */
  datatype Submitted = Submitted(called: bool, navigated: bool, error: Option<string>)

  /** `handleSubmit`. */
  function Submit(m: Mode, f: Form, result: AuthResult): (r: Submitted)
    ensures r.called <==> Precheck(m, f).None?
    ensures !r.called ==> r.error == Precheck(m, f) && !r.navigated
    ensures r.called ==> (r.navigated <==> result.success)
    ensures r.navigated <==> r.error.None?
    ensures r.called && !result.success && result.error != [] ==> r.error == Some(result.error)
    ensures r.called && !result.success && result.error == [] ==> r.error == Some("Authentication failed")
  {
    match Precheck(m, f)
    case Some(message) => Submitted(false, false, Some(message))
    case None =>
      if result.success then Submitted(true, true, None)
      else Submitted(true, false, Some(if result.error != [] then result.error else "Authentication failed"))
  }

  /** A short password stops sign-up but not sign-in. */
  lemma ShortPasswordOnlyBlocksSignUp(f: Form, result: AuthResult)
    requires f.name != [] && f.email != [] && f.password != [] && |f.password| < MinPasswordLength
    ensures !Submit(SignUp, f, result).called
    ensures Submit(SignIn, f, result).called
  {
  }
}
