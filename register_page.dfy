/**
 * The registration form of client/src/pages/Register.jsx: `validateForm`, which reports the
 * first failing check, and `handleSubmit`, which calls `preRegisterUser` only for a form that
 * passes.
 */
module RegisterPage {
  import opened Wrappers
  import opened Text
  import opened UserModel
  import opened AuthController

  datatype RegisterForm = RegisterForm(
    firstname: string, lastname: string, email: string, roll: string,
    department: string, password: string, confirmPassword: string)

  /** The messages of `validateForm`, in the order it checks. */
  datatype Problem = RollNotDigits | EmailFormat | EmailRollMismatch | NoDepartment | PasswordsDiffer

  /** `validateForm`: `None` when every check passes, else the first failure. */
  function Validate(f: RegisterForm): (r: Option<Problem>)
    ensures r.None? <==> IsNumeral(f.roll) && IsRuetEmail(f.email) && BeforeAt(f.email) == f.roll
                         && f.department != "" && f.password == f.confirmPassword
    ensures r == Some(RollNotDigits) <==> !IsNumeral(f.roll)
    ensures r == Some(EmailFormat) <==> IsNumeral(f.roll) && !IsRuetEmail(f.email)
    ensures r == Some(EmailRollMismatch) <==> IsNumeral(f.roll) && IsRuetEmail(f.email) && BeforeAt(f.email) != f.roll
    ensures r == Some(NoDepartment) <==> IsNumeral(f.roll) && IsRuetEmail(f.email) && BeforeAt(f.email) == f.roll
                                         && f.department == ""
  {
    if !IsNumeral(f.roll) then Some(RollNotDigits)
    else if !IsRuetEmail(f.email) then Some(EmailFormat)
    else if BeforeAt(f.email) != f.roll then Some(EmailRollMismatch)
    else if f.department == "" then Some(NoDepartment)
    else if f.password != f.confirmPassword then Some(PasswordsDiffer)
    else None
  }

  /**
   * The leading digits-only check on `roll` decides only which message is shown: the verdict
   * is the same without it, since the address check and the prefix check already force it.
   */
  lemma RollCheckOnlyOrders(f: RegisterForm)
    ensures Validate(f).None? <==> IsRuetEmail(f.email) && BeforeAt(f.email) == f.roll
                                   && f.department != "" && f.password == f.confirmPassword
  {
    if IsRuetEmail(f.email) && BeforeAt(f.email) == f.roll {
      RollFollowsEmail(f.email, f.roll);
    }
  }

  /** The fields the server reads from the submitted form. */
  function ToServer(f: RegisterForm): Form
  {
    Form(f.email, f.roll, f.password, f.firstname, f.lastname, f.department)
  }

  /** A form the page accepts passes the guards `preRegisterUser` opens with. */
  lemma AcceptedPassesServerGuards(f: RegisterForm)
    requires Validate(f).None?
    ensures CheckForm(ToServer(f)).None?
  {
  }

  datatype SubmitOutcome = Refused(problem: Problem) | CallPreRegister(form: Form)

  /** `handleSubmit`: a failing form is reported and no request is made. */
  function HandleSubmit(f: RegisterForm): (r: SubmitOutcome)
    ensures r.CallPreRegister? <==> Validate(f).None?
    ensures r.Refused? ==> Validate(f) == Some(r.problem)
    ensures r.CallPreRegister? ==> CheckForm(r.form).None? && r.form.email == f.email && r.form.roll == f.roll
  {
    match Validate(f)
    case Some(p) => Refused(p)
    case None =>
      AcceptedPassesServerGuards(f);
      CallPreRegister(ToServer(f))
  }
}
