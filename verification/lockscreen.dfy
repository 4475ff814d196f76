/**
 * The lock screen's submit rule (src/LockScreen.tsx). The caller's
 * `onUnlock` callback becomes an explicit output recording whether it was
 * called and with which argument; the 500 ms error-flash timer becomes an
 * explicit event.
 */
module LockScreen {
  import opened Wrappers

  const DefaultUserName := "User"
  const DefaultRequirePassword := false

  /** The only password the placeholder check accepts. */
  const AcceptedPassword := "password"

  datatype LockProps = LockProps(isLocked: bool, userName: string, requirePassword: bool)

  /** Fills in the defaults for the optional props. */
  function MakeProps(isLocked: bool, userName: Option<string>, requirePassword: Option<bool>): (p: LockProps)
    ensures p.isLocked == isLocked
    ensures userName.None? ==> p.userName == "User"
    ensures requirePassword.None? ==> !p.requirePassword
  {
    LockProps(isLocked, userName.GetOr(DefaultUserName), requirePassword.GetOr(DefaultRequirePassword))
  }

  /** The component's own state: the typed password and the error flag. */
  datatype Lock = Lock(password: string, error: bool)

  const Initial := Lock("", false)

  datatype UnlockCall = NotCalled | Called(argument: Option<string>)

  datatype Submitted = Submitted(state: Lock, unlock: UnlockCall)

  /**
   * Submitting the form, or clicking the unlock button when no password is
   * required (both reach `onUnlock` the same way).
   */
  function Submit(s: Lock, requirePassword: bool): (r: Submitted)
    ensures !requirePassword ==> r == Submitted(s, Called(None))
    ensures requirePassword ==> (r.unlock != NotCalled <==> s.password == AcceptedPassword)
    ensures requirePassword && s.password == AcceptedPassword ==> r == Submitted(s, Called(Some(AcceptedPassword)))
    ensures requirePassword && s.password != AcceptedPassword ==> r.state == Lock("", true)
  {
    if requirePassword then
      if s.password == AcceptedPassword then Submitted(s, Called(Some(s.password)))
      else Submitted(Lock("", true), NotCalled)
    else Submitted(s, Called(None))
  }

  /** Typing into the password field. */
  function Input(s: Lock, text: string): (r: Lock)
    ensures r.password == text && r.error == s.error
  {
    s.(password := text)
  }

  /** The error-flash timer firing. */
  function ErrorTimerFired(s: Lock): (r: Lock)
    ensures !r.error && r.password == s.password
  {
    s.(error := false)
  }

  /** Whether the component renders anything at all. */
  function Rendered(p: LockProps): (shown: bool)
    ensures shown <==> p.isLocked
  {
    p.isLocked
  }

  /** There is no attempt counter: every failed submit leads to the same state, whatever came before. */
  lemma FailuresAreMemoryless(s1: Lock, s2: Lock)
    requires s1.password != AcceptedPassword && s2.password != AcceptedPassword
    ensures Submit(s1, true) == Submit(s2, true)
  {
  }

  /** After any number of failures, the error flash clears and typing the password unlocks. */
  lemma RetryAfterFailureUnlocks(s: Lock)
    requires s.password != AcceptedPassword
    ensures var failed := Submit(s, true).state;
      && failed.error
      && ErrorTimerFired(failed) == Initial
      && Submit(Input(failed, AcceptedPassword), true).unlock == Called(Some(AcceptedPassword))
  {
  }

  /**
   * With the optional props left out, the screen shows while locked and any
   * submit or button click calls onUnlock with no argument, whatever was typed.
   */
  lemma DefaultPropsUnlockWithoutPassword(isLocked: bool, s: Lock)
    ensures var p := MakeProps(isLocked, None, None);
      && (Rendered(p) <==> isLocked)
      && p.userName == DefaultUserName
      && Submit(s, p.requirePassword) == Submitted(s, Called(None))
  {
  }
}
