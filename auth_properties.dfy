/**
 * Properties of the session-expiry watcher that relate several operations: the
 * invariant over every run of events, the countdown, the method toggle, the
 * update's idempotence and worked scenarios.
 */
module AuthProperties {
  import opened Wrappers
  import opened AuthState

  /** Everything that can happen to the object: page load, timers, answers from the server, user actions. */
  datatype Event =
    | PageLoaded(remaining: int)
    | CheckTimerFired
    | LoginTimerFired
    | CountdownTicked
    | SessionInfoAnswered(info: SessionInfoResult)
    | PasswordTyped(text: string)
    | AlternativeLinkClicked
    | LoginSubmitted
    | PasswordLoginAnswered(login: PasswordLoginResult)
    | SecondFactorAnswered(factor: SecondFactorResult)
    | RenewClicked
    | LogoutClicked

  /** The operation each event runs. */
  function Apply(page: Page, s: Session, e: Event): (r: Session)
    ensures s.Valid() ==> r.Valid()
  {
    match e
    case PageLoaded(remaining) => s.Init(page, remaining)
    case CheckTimerFired => s.OnCheckTimer()
    case LoginTimerFired => s.OnLoginTimer(page)
    case CountdownTicked => s.Decrement()
    case SessionInfoAnswered(info) => s.OnSessionInfo(page, info)
    case PasswordTyped(text) => s.TypePassword(text)
    case AlternativeLinkClicked => s.ToggleMethod()
    case LoginSubmitted => s.Login(page)
    case PasswordLoginAnswered(login) => s.OnPasswordLogin(login)
    case SecondFactorAnswered(factor) => s.OnSecondFactor(factor)
    case RenewClicked => s.RenewSession()
    case LogoutClicked => s.Logout()
  }

  /** The state after the events `es`, in order; the invariant holds all the way. */
  function Run(page: Page, s: Session, es: seq<Event>): (r: Session)
    ensures s.Valid() ==> r.Valid()
    decreases |es|
  {
    if |es| == 0 then s else Run(page, Apply(page, s, es[0]), es[1..])
  }

  /** Whatever happens after the object is created, the warning and the login modal never show together. */
  lemma NeverBothModals(page: Page, es: seq<Event>)
    ensures var r := Run(page, Initial(), es);
      && !(r.modals.showingWarning && r.modals.showingLogin)
      && r.loginMethod.withPassword != r.loginMethod.withSecurityKey
  {
  }

  /** `n` ticks of the countdown. */
  function Ticks(s: Session, n: nat): Session
    decreases n
  {
    if n == 0 then s else Ticks(s.Decrement(), n - 1)
  }

  /**
   * The countdown: from `k` seconds, `n` ticks leave `k - n` seconds, or zero once
   * `k` ticks have passed, and then the countdown interval is stopped.
   */
  lemma {:induction false} TicksCountDown(s: Session, k: nat, n: nat)
    requires s.remaining == Some(k)
    requires k > 0 || s.timers.countdown.None?
    ensures Ticks(s, n).remaining == Some(if n <= k then k - n else 0)
    ensures n >= k ==> Ticks(s, n).timers.countdown.None?
    ensures n < k ==> Ticks(s, n).timers.countdown == s.timers.countdown
    ensures Ticks(s, n).modals == s.modals && Ticks(s, n).requests == s.requests
    decreases n
  {
    if n > 0 {
      var d := s.Decrement();
      if k > 0 {
        TicksCountDown(d, k - 1, n - 1);
      } else {
        TicksCountDown(d, 0, n - 1);
      }
    }
  }

  /** Toggling the method twice restores the method and the visible controls; the password and error stay cleared. */
  lemma ToggleTwice(s: Session)
    ensures var r := s.ToggleMethod().ToggleMethod();
      && r.loginMethod == s.loginMethod
      && r.form.passwordFieldShown == s.form.passwordFieldShown
      && r.form.alternativeLinkShown == s.form.alternativeLinkShown
      && r.form.password == "" && r.form.error == ""
      && r.modals == s.modals && r.requests == s.requests
  {
  }

  /** On a fresh form, toggling twice gives back the fresh form: the same button, field and link. */
  lemma ToggleTwiceOnFreshForm(s: Session)
    requires s.Valid() && s.form == FreshForm(s.loginMethod.withSecurityKey)
    ensures s.ToggleMethod().ToggleMethod() == s
  {
  }

  /**
   * An update is idempotent except at zero, where a repeated update may submit the
   * waiting login a second time: the warning is not started twice.
   */
  lemma UpdateIdempotent(s: Session, page: Page, t: Option<int>)
    requires t != Some(0)
    ensures s.Update(page, t).Update(page, t) == s.Update(page, t)
  {
    var once := s.Update(page, t);
    if InWarningWindow(t) {
      assert once.modals.showingWarning;
    }
  }

  /** At zero with the login modal up, every update submits the waiting login again. */
  lemma UpdateAtZeroResubmits(s: Session, page: Page)
    requires s.Valid() && s.modals.showingLogin && s.loginMethod.submitIfLoggedOut
    ensures var once := s.Update(page, Some(0));
      |once.requests| == |s.requests| + 1 && |once.Update(page, Some(0)).requests| == |s.requests| + 2
  {
  }

  /** A passive check answered with 300 seconds: the next check in 60 seconds, no modal shown. */
  lemma ScenarioSafeSession(s: Session, page: Page)
    requires s.Valid()
    ensures var r := s.OnSessionInfo(page, SessionInfoSuccess(Some(300)));
      && r.timers.check == Some(60)
      && !r.modals.showingWarning && !r.modals.showingLogin
      && r.requests == s.requests
  {
  }

  /** Answered with 90 seconds: the warning shows at once, no forced-login timer is armed, the next check in 60 seconds. */
  lemma ScenarioWarningWithoutForcedLogin(s: Session, page: Page)
    requires s.Valid()
    ensures var r := s.OnSessionInfo(page, SessionInfoSuccess(Some(90)));
      && r.modals.showingWarning && !r.modals.showingLogin
      && r.timers.login == s.timers.login
      && r.timers.check == Some(60)
  {
  }

  /** Answered with 30 seconds: the warning shows and the forced-login timer is armed for 30 seconds. */
  lemma ScenarioWarningWithForcedLogin(s: Session, page: Page)
    requires s.Valid()
    ensures var r := s.OnSessionInfo(page, SessionInfoSuccess(Some(30)));
      && r.modals.showingWarning && !r.modals.showingLogin
      && r.timers.login == Some(30)
      && r.timers.check == Some(60)
  {
  }

  /**
   * A failed check: the remaining time becomes `-1`, and, as the code is written,
   * both modals hide and the next check is in 60 seconds; the login modal is not shown.
   */
  lemma ScenarioFailedCheck(s: Session, page: Page)
    requires s.Valid()
    ensures var r := s.OnSessionInfo(page, SessionInfoFailure);
      && r.remaining == Some(-1)
      && !r.modals.showingWarning && !r.modals.showingLogin
      && r.timers.check == Some(60)
  {
  }

  /**
   * The password is submitted with a CSRF token while another tab has already
   * renewed the session: the passive check reports 300 seconds, no credentials are
   * sent, the modal hides and regular checks resume.
   */
  lemma ScenarioRenewedElsewhere(s: Session, page: Page, password: string)
    requires s.Valid() && s.modals.showingLogin && s.loginMethod.withPassword
    requires page.hasCsrfToken && |password| >= MinPasswordLength
    ensures var r := s.TypePassword(password).Login(page).OnSessionInfo(page, SessionInfoSuccess(Some(300)));
      && r.requests == s.requests + [SessionInfo(false)]
      && !r.modals.showingLogin && !r.modals.showingWarning
      && !r.loginMethod.submitIfLoggedOut
      && r.timers.check == Some(60)
  {
  }

  /** The same submission when the check confirms the session has ended: now the password is sent, once. */
  lemma ScenarioConfirmedExpiry(s: Session, page: Page, password: string)
    requires s.Valid() && s.modals.showingLogin && s.loginMethod.withPassword && !s.loginMethod.mfaFlow
    requires page.hasCsrfToken && |password| >= MinPasswordLength
    ensures var r := s.TypePassword(password).Login(page).OnSessionInfo(page, SessionInfoSuccess(Some(0)));
      && r.requests == s.requests + [SessionInfo(false), PasswordLogin(password)]
      && r.modals.showingLogin
      && !r.loginMethod.submitIfLoggedOut
  {
    var l := s.TypePassword(password).Login(page);
    assert l.requests == s.requests + [SessionInfo(false)];
    assert l.loginMethod.submitIfLoggedOut && l.form.password == password;
  }

  /** The server asks for a second factor: the modal stays up, the flow moves on in place, the password inputs go. */
  lemma ScenarioSecondFactorRequired(s: Session)
    requires s.Valid() && s.modals.showingLogin
    ensures var r := s.OnPasswordLogin(LoginAccepted(true));
      && r.modals.showingLogin && r.loginMethod.mfaFlow
      && !r.form.passwordFieldShown && !r.form.alternativeLinkShown
      && r.requests == s.requests
  {
  }

  /**
   * The forced-login timer survives a renewal: after a check reports 30 seconds
   * the user keeps the session, the renewal reports an hour, and the armed timer
   * still fires and shows the login modal over a live session.
   */
  lemma StaleLoginTimerSurvivesRenewal(s: Session, page: Page)
    requires s.Valid() && !s.modals.showingWarning && !s.modals.showingLogin
    ensures var warned := s.OnSessionInfo(page, SessionInfoSuccess(Some(30)));
      var renewed := warned.RenewSession().OnSessionInfo(page, SessionInfoSuccess(Some(3600)));
      && warned.timers.login == Some(30)
      && renewed.remaining == Some(3600) && renewed.timers.login == Some(30)
      && renewed.OnLoginTimer(page).modals.showingLogin
  {
  }

  /**
   * Without `Craft.requireMfa` nothing resets the second-factor flow: once a login
   * went through a second factor, the next login modal sends the second-factor code
   * where a password is expected.
   */
  lemma StaleSecondFactorFlow(s: Session, page: Page, password: string)
    requires s.Valid() && s.modals.showingLogin && s.loginMethod.withPassword
    requires !page.requireMfa && !page.hasCsrfToken && |password| >= MinPasswordLength
    ensures var done := s.OnPasswordLogin(LoginAccepted(true)).OnSecondFactor(FactorAccepted);
      var again := done.ShowLogin(page).TypePassword(password).Login(page);
      && again.loginMethod.mfaFlow
      && again.requests == done.requests + [MfaCode]
  {
  }
}
