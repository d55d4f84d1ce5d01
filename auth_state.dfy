/**
 * The state of `Craft.AuthManager`, the control panel's session-expiry watcher, as
 * a value, and every one of its operations as a function from the old state to the
 * new one. The class in `auth_manager.dfy` holds the same state in fields and is
 * specified by these functions.
 *
 * Conventions:
 * - a timer slot is the delay (in seconds) it was armed with, `None` when nothing
 *   is pending; the countdown interval is armed with a period of one second;
 * - the calls the object makes to the outside world (the session-info query, the
 *   password, security-key and second-factor submissions, the sign-out request) are
 *   appended to `requests` in the order they are issued, and their answers come
 *   back as parameters of the `On...` functions;
 * - the page globals the object reads are gathered in a `Page` value.
 */
module AuthState {
  import opened Wrappers

  /** `Craft.AuthManager.checkInterval`, in seconds. */
  const CheckInterval := 60
  /** `Craft.AuthManager.minSafeSessionTime`, in seconds. */
  const MinSafeSessionTime := 120
  /** The shortest password the login form accepts. */
  const MinPasswordLength := 6
  /** The period of the warning countdown, in seconds. */
  const CountdownPeriod := 1
  /** The generic message shown when a login failure carries none (before localisation). */
  const ServerErrorMessage := "A server error occurred."

  /** A call the object hands to the outside world. */
  datatype Request =
    | SessionInfo(extendSession: bool)
    | WebauthnAssertion
    | MfaCode
    | PasswordLogin(password: string)
    | SignOut

  /**
   * The page globals read by the object: whether a user is signed in
   * (`Craft.username`), `Craft.requireMfa`, `Craft.userHasSecurityKeys`, whether
   * the browser supports WebAuthn, and whether `Craft.csrfTokenValue` is defined.
   */
  datatype Page = Page(
    hasUsername: bool,
    requireMfa: bool,
    userHasSecurityKeys: bool,
    webAuthnSupported: bool,
    hasCsrfToken: bool)

  /** How the session-info query ended; `timeout` is `None` when it does not parse as an integer. */
  datatype SessionInfoResult = SessionInfoSuccess(timeout: Option<int>) | SessionInfoFailure

  /** How the password submission ended; `message` is `None` when the error carries none. */
  datatype PasswordLoginResult = LoginAccepted(mfa: bool) | LoginRejected(message: Option<string>)

  /** How a security-key or second-factor submission ended. */
  datatype SecondFactorResult = FactorAccepted | FactorRejected(error: Option<string>)

  /** The test of AuthManager.js lines 93-96: a known time, not the failure sentinel `-1`, below the safe minimum. */
  predicate InWarningWindow(t: Option<int>)
  {
    t.Some? && t.value != -1 && t.value < MinSafeSessionTime
  }

  /**
   * The delay of the next session check after an update with `t`: the check
   * interval, except when the session is safe now but would not be at the next
   * regular check, in which case the check lands one second inside the window.
   */
  function NextCheckDelay(t: Option<int>): (d: int)
    ensures 1 <= d <= CheckInterval
    ensures InWarningWindow(t) ==> d == CheckInterval
    ensures t == Some(-1) || t.None? ==> d == CheckInterval
    ensures (t.Some? && MinSafeSessionTime <= t.value < MinSafeSessionTime + CheckInterval)
              ==> d == t.value - MinSafeSessionTime + 1
    ensures t.Some? && t.value >= MinSafeSessionTime + CheckInterval ==> d == CheckInterval
  {
    if InWarningWindow(t) then CheckInterval
    else if t.Some? && t.value != -1 && t.value < MinSafeSessionTime + CheckInterval
    then t.value - MinSafeSessionTime + 1
    else CheckInterval
  }

  /**
   * From a safe remaining time the next check never comes later than the moment
   * the session enters the warning window, and when a regular check would come too
   * late it comes exactly one second after that moment.
   */
  lemma NextCheckCatchesWindow(t: int)
    requires t >= MinSafeSessionTime
    ensures t - NextCheckDelay(Some(t)) >= MinSafeSessionTime - 1
    ensures t < MinSafeSessionTime + CheckInterval ==> t - NextCheckDelay(Some(t)) == MinSafeSessionTime - 1
  {
  }

  /** `validatePassword`'s test: at least six characters. */
  predicate PasswordAccepted(password: string)
  {
    |password| >= MinPasswordLength
  }

  /** The pending timers: the next session check, the forced login, the warning countdown. */
  datatype Timers = Timers(check: Option<int>, login: Option<int>, countdown: Option<int>)

  /** The visibility flags, and whether each modal instance exists. */
  datatype Modals = Modals(showingWarning: bool, showingLogin: bool, hasWarningModal: bool, hasLoginModal: bool)

  /**
   * `loginWithPassword`, `loginWithSecurityKey`, `mfaFlow` (a second factor is now
   * expected) and `submitLoginIfLoggedOut` (a login waits on a session check).
   */
  datatype LoginMethod = LoginMethod(withPassword: bool, withSecurityKey: bool, mfaFlow: bool, submitIfLoggedOut: bool)

  /** What the login form shows: the typed password, which controls are present, whether the button is enabled, the error text. */
  datatype LoginForm = LoginForm(
    password: string,
    passwordFieldShown: bool,
    alternativeLinkShown: bool,
    buttonEnabled: bool,
    error: string)

  /** The form of a newly built login modal: empty, with the controls of the selected method. */
  function FreshForm(securityKey: bool): (f: LoginForm)
    ensures f.password == "" && f.error == ""
    ensures f.passwordFieldShown == !securityKey
    ensures f.buttonEnabled == securityKey && f.alternativeLinkShown == securityKey
  {
    LoginForm("", !securityKey, securityKey, securityKey, "")
  }

  /** The submission the deferred login makes on AuthManager.js lines 118-126; none when neither method is selected. */
  function DeferredRequests(m: LoginMethod, password: string): (rs: seq<Request>)
    ensures |rs| <= 1
    ensures |rs| == 1 <==> m.withPassword || m.withSecurityKey
    ensures m.withSecurityKey ==> rs == [WebauthnAssertion]
    ensures !m.withSecurityKey && m.withPassword && m.mfaFlow ==> rs == [MfaCode]
    ensures !m.withSecurityKey && m.withPassword && !m.mfaFlow ==> rs == [PasswordLogin(password)]
  {
    if m.withSecurityKey then [WebauthnAssertion]
    else if m.withPassword then (if m.mfaFlow then [MfaCode] else [PasswordLogin(password)])
    else []
  }

  /** The submission `login` makes directly when there is no CSRF token (AuthManager.js lines 492-498), in the source's test order. */
  function DirectRequests(m: LoginMethod, password: string): (rs: seq<Request>)
    ensures |rs| <= 1
    ensures |rs| == 1 <==> m.withPassword || m.withSecurityKey || m.mfaFlow
    ensures m.withSecurityKey ==> rs == [WebauthnAssertion]
    ensures !m.withSecurityKey && m.mfaFlow ==> rs == [MfaCode]
    ensures !m.withSecurityKey && !m.mfaFlow && m.withPassword ==> rs == [PasswordLogin(password)]
  {
    if m.withSecurityKey then [WebauthnAssertion]
    else if m.mfaFlow then [MfaCode]
    else if m.withPassword then [PasswordLogin(password)]
    else []
  }

  /**
   * The two orders differ (the deferred one tests the password method before the
   * second-factor flow), yet whenever a method is selected they make the same
   * single submission.
   */
  lemma DispatchOrdersAgree(m: LoginMethod, password: string)
    requires m.withPassword || m.withSecurityKey
    ensures DirectRequests(m, password) == DeferredRequests(m, password)
    ensures |DirectRequests(m, password)| == 1
  {
  }

  /** With no method selected they differ: the direct order still submits a pending second factor. */
  lemma DispatchOrdersDifferWithoutMethod(password: string)
    ensures DirectRequests(LoginMethod(false, false, true, false), password) == [MfaCode]
    ensures DeferredRequests(LoginMethod(false, false, true, false), password) == []
  {
  }

  /**
   * The fields of the object, less the DOM: the last known remaining time (`None`
   * while unknown or not a number), the timers, the modals, the login method, the
   * login form, and the calls made so far.
   */
  datatype Session = Session(
    remaining: Option<int>,
    timers: Timers,
    modals: Modals,
    loginMethod: LoginMethod,
    form: LoginForm,
    requests: seq<Request>)
  {
    /**
     * What every operation keeps: at most one modal showing, a countdown only
     * while the warning shows, the warning modal built before it shows, the login
     * modal existing exactly while it shows, and exactly one login method selected.
     */
    predicate Valid()
    {
      && !(modals.showingWarning && modals.showingLogin)
      && (timers.countdown.Some? ==> modals.showingWarning)
      && (modals.showingWarning ==> modals.hasWarningModal)
      && modals.hasLoginModal == modals.showingLogin
      && loginMethod.withPassword != loginMethod.withSecurityKey
    }

    /** `showLogoutWarningModal`: hide the login modal first, then show the warning and start its countdown. */
    function ShowWarning(): (r: Session)
      ensures Valid() ==> r.Valid()
    {
      var s := if modals.showingLogin then HideLogin() else this;
      s.(modals := s.modals.(showingWarning := true, hasWarningModal := true),
         timers := s.timers.(countdown := Some(CountdownPeriod)))
    }

    lemma ShowWarningEffect()
      ensures var r := ShowWarning();
        && r.modals.showingWarning && !r.modals.showingLogin && r.modals.hasWarningModal
        && (modals.showingLogin ==> !r.modals.hasLoginModal)
        && (!modals.showingLogin ==> r.modals.hasLoginModal == modals.hasLoginModal)
        && r.timers == timers.(countdown := Some(CountdownPeriod))
        && r.remaining == remaining && r.loginMethod == loginMethod && r.form == form && r.requests == requests
    {
    }

    /** `hideLogoutWarningModal`: the warning is hidden and, once its modal exists, its countdown stopped. */
    function HideWarning(): (r: Session)
      ensures Valid() ==> r.Valid()
    {
      this.(modals := modals.(showingWarning := false),
            timers := if modals.hasWarningModal then timers.(countdown := None) else timers)
    }

    lemma HideWarningEffect()
      ensures var r := HideWarning();
        && !r.modals.showingWarning
        && r.modals.showingLogin == modals.showingLogin && r.modals.hasLoginModal == modals.hasLoginModal
        && r.modals.hasWarningModal == modals.hasWarningModal
        && r.timers.countdown == (if modals.hasWarningModal then None else timers.countdown)
        && r.timers.check == timers.check && r.timers.login == timers.login
        && r.remaining == remaining && r.loginMethod == loginMethod && r.form == form && r.requests == requests
    {
    }

    /** `hideLoginModal`: the login modal is hidden and destroyed, so the next show builds a fresh one. */
    function HideLogin(): (r: Session)
      ensures Valid() ==> r.Valid()
    {
      this.(modals := modals.(showingLogin := false, hasLoginModal := false))
    }

    lemma HideLoginEffect()
      ensures var r := HideLogin();
        && !r.modals.showingLogin && !r.modals.hasLoginModal
        && r.modals.showingWarning == modals.showingWarning && r.modals.hasWarningModal == modals.hasWarningModal
        && r.remaining == remaining && r.timers == timers && r.loginMethod == loginMethod && r.form == form && r.requests == requests
    {
    }

    /**
     * The method a newly built login modal starts with (AuthManager.js lines 283-293): under
     * `Craft.requireMfa` the security key when the user has one and the browser
     * supports WebAuthn, the password otherwise, with the second-factor flow reset;
     * without it the method stays as it was.
     */
    function ChooseMethod(page: Page): (r: Session)
    {
      if page.requireMfa then
        var key := page.userHasSecurityKeys && page.webAuthnSupported;
        this.(loginMethod := loginMethod.(withPassword := !key, withSecurityKey := key, mfaFlow := false))
      else this
    }

    lemma ChooseMethodEffect(page: Page)
      ensures var r := ChooseMethod(page);
        && (page.requireMfa ==>
              && r.loginMethod.withSecurityKey == (page.userHasSecurityKeys && page.webAuthnSupported)
              && r.loginMethod.withPassword == !r.loginMethod.withSecurityKey
              && !r.loginMethod.mfaFlow
              && r.loginMethod.submitIfLoggedOut == loginMethod.submitIfLoggedOut)
        && (!page.requireMfa ==> r == this)
        && r == this.(loginMethod := r.loginMethod)
    {
    }

    /** Building the login modal (AuthManager.js lines 282-391): the method is chosen, then the form is fresh for it. */
    function BuildLoginModal(page: Page): (r: Session)
    {
      var s := ChooseMethod(page);
      s.(modals := s.modals.(hasLoginModal := true), form := FreshForm(s.loginMethod.withSecurityKey))
    }

    lemma BuildLoginModalEffect(page: Page)
      ensures var r := BuildLoginModal(page);
        && r.modals == modals.(hasLoginModal := true)
        && r.loginMethod == ChooseMethod(page).loginMethod
        && r.form == FreshForm(r.loginMethod.withSecurityKey)
        && r.remaining == remaining && r.timers == timers && r.requests == requests
    {
    }

    /** `showLoginModal`: hide the warning first, then show the login modal, building it when none exists. */
    function ShowLogin(page: Page): (r: Session)
      ensures Valid() ==> r.Valid()
    {
      var s := if modals.showingWarning then HideWarning() else this;
      var s := s.(modals := s.modals.(showingLogin := true));
      if s.modals.hasLoginModal then s else s.BuildLoginModal(page)
    }

    lemma ShowLoginEffect(page: Page)
      ensures var r := ShowLogin(page);
        && r.modals.showingLogin && r.modals.hasLoginModal && !r.modals.showingWarning
        && (modals.showingWarning && modals.hasWarningModal ==> r.timers.countdown.None?)
        && (!modals.showingWarning ==> r.timers.countdown == timers.countdown)
        && r.timers.check == timers.check && r.timers.login == timers.login
        && (!modals.hasLoginModal ==> r.loginMethod == ChooseMethod(page).loginMethod)
        && (!modals.hasLoginModal ==> r.form == FreshForm(r.loginMethod.withSecurityKey))
        && (modals.hasLoginModal ==> r.loginMethod == loginMethod && r.form == form)
        && r.loginMethod.submitIfLoggedOut == loginMethod.submitIfLoggedOut
        && r.remaining == remaining && r.requests == requests
    {
    }

    /** `setCheckRemainingSessionTimer`: any pending check is replaced by one after `seconds`. */
    function SetCheckTimer(seconds: int): (r: Session)
      ensures Valid() ==> r.Valid()
    {
      this.(timers := timers.(check := Some(seconds)))
    }

    lemma SetCheckTimerEffect(seconds: int)
      ensures var r := SetCheckTimer(seconds);
        && r.timers.check == Some(seconds)
        && r.timers.login == timers.login && r.timers.countdown == timers.countdown
        && r.remaining == remaining && r.modals == modals && r.loginMethod == loginMethod && r.form == form && r.requests == requests
    {
    }

    /** `checkRemainingSessionTime`: the session-info query is sent, extending the session only when asked to. */
    function CheckSession(extendSession: bool): (r: Session)
      ensures Valid() ==> r.Valid()
    {
      this.(requests := requests + [SessionInfo(extendSession)])
    }

    lemma CheckSessionEffect(extendSession: bool)
      ensures var r := CheckSession(extendSession);
        && r.requests == requests + [SessionInfo(extendSession)]
        && r.remaining == remaining && r.timers == timers && r.modals == modals && r.loginMethod == loginMethod && r.form == form
    {
    }

    /** `showLoginError` (and `clearLoginError`, which passes `""`): a missing error becomes the generic message; an empty one is kept. */
    function ShowLoginError(error: Option<string>): (r: Session)
      ensures Valid() ==> r.Valid()
    {
      this.(form := form.(error := if error.Some? then error.value else ServerErrorMessage))
    }

    lemma ShowLoginErrorEffect(error: Option<string>)
      ensures var r := ShowLoginError(error);
        && (error.Some? ==> r.form.error == error.value)
        && (error.None? ==> r.form.error == ServerErrorMessage)
        && r.form == form.(error := r.form.error)
        && r.remaining == remaining && r.timers == timers && r.modals == modals && r.loginMethod == loginMethod && r.requests == requests
    {
    }

    /** `webauthnLogin`, `mfaLogin` and `submitLogin`: clear the error, then make the submission. */
    function Submit(request: Request): (r: Session)
      ensures Valid() ==> r.Valid()
    {
      ShowLoginError(Some("")).(requests := requests + [request])
    }

    lemma SubmitEffect(request: Request)
      ensures var r := Submit(request);
        && r.form == form.(error := "")
        && r.requests == requests + [request]
        && r.remaining == remaining && r.timers == timers && r.modals == modals && r.loginMethod == loginMethod
    {
    }

    /** The login submission `updateRemainingSessionTime` makes once the session is known to have ended. */
    function SubmitDeferredLogin(): (r: Session)
      ensures Valid() ==> r.Valid()
    {
      if loginMethod.withSecurityKey then Submit(WebauthnAssertion)
      else if loginMethod.withPassword then (if loginMethod.mfaFlow then Submit(MfaCode) else Submit(PasswordLogin(form.password)))
      else this
    }

    lemma SubmitDeferredLoginEffect()
      ensures var r := SubmitDeferredLogin();
        && r.requests == requests + DeferredRequests(loginMethod, form.password)
        && r.remaining == remaining && r.timers == timers && r.modals == modals && r.loginMethod == loginMethod
        && r.form.password == form.password
    {
    }

    /**
     * `updateRemainingSessionTime`. In the warning window with time left, the warning
     * shows (started only if it was not showing, so a running countdown is kept) and
     * a session that ends before the next check arms the forced-login timer; at zero
     * the login modal shows, or, if it already shows and a login waits on this check,
     * that login is submitted. Otherwise, including the failure sentinel `-1`, both
     * modals hide. The next check is always rescheduled, replacing any pending one.
     */
    function Update(page: Page, t: Option<int>): (r: Session)
      ensures Valid() ==> r.Valid()
    {
      var s := this.(remaining := t);
      if InWarningWindow(t) then
        var s :=
          if t.value != 0 then
            var w := if !s.modals.showingWarning then s.ShowWarning() else s;
            if t.value < CheckInterval then w.(timers := w.timers.(login := Some(t.value))) else w
          else if s.modals.showingLogin then
            (if s.loginMethod.submitIfLoggedOut then s.SubmitDeferredLogin() else s)
          else s.ShowLogin(page);
        s.SetCheckTimer(CheckInterval)
      else
        var s := s.HideWarning().HideLogin();
        if t.Some? && t.value != -1 && t.value < MinSafeSessionTime + CheckInterval
        then s.SetCheckTimer(t.value - MinSafeSessionTime + 1)
        else s.SetCheckTimer(CheckInterval)
    }

    /** Every update records the new time, reschedules the check, and leaves the deferred-login flag alone. */
    lemma UpdateEffect(page: Page, t: Option<int>)
      ensures var r := Update(page, t);
        && r.remaining == t
        && r.timers.check == Some(NextCheckDelay(t))
        && r.loginMethod.submitIfLoggedOut == loginMethod.submitIfLoggedOut
    {
    }

    /** Outside the warning window, and on `-1`, both modals hide and nothing is sent. */
    lemma UpdateOutsideWindow(page: Page, t: Option<int>)
      requires !InWarningWindow(t)
      ensures var r := Update(page, t);
        && !r.modals.showingWarning && !r.modals.showingLogin
        && r.timers.login == timers.login && r.requests == requests
    {
    }

    /**
     * In the window with time left: the warning shows, a countdown already running
     * is kept, and a session that ends before the next check arms the forced login.
     */
    lemma UpdateInWindow(page: Page, t: Option<int>)
      requires InWarningWindow(t) && t.value != 0
      ensures var r := Update(page, t);
        && r.modals.showingWarning && r.requests == requests
        && (Valid() || !modals.showingWarning ==> !r.modals.showingLogin)
        && r.timers.login == (if t.value < CheckInterval then Some(t.value) else timers.login)
        && r.timers.countdown == (if modals.showingWarning then timers.countdown else Some(CountdownPeriod))
    {
    }

    /** At zero the login modal shows; if it already shows, a login waiting on this check is submitted. */
    lemma UpdateAtZero(page: Page)
      ensures var r := Update(page, Some(0));
        && r.modals.showingLogin && r.timers.login == timers.login
        && (Valid() ==> !r.modals.showingWarning)
        && (modals.showingLogin ==>
              && r.modals == modals && r.loginMethod == loginMethod
              && r.requests == requests + (if loginMethod.submitIfLoggedOut then DeferredRequests(loginMethod, form.password) else []))
        && (!modals.showingLogin ==> r.requests == requests)
    {
    }

    /** `decrementLogoutWarning`: count down while positive, never below zero; stop the countdown at zero. */
    function Decrement(): (r: Session)
      ensures Valid() ==> r.Valid()
    {
      var s := if remaining.Some? && remaining.value > 0 then this.(remaining := Some(remaining.value - 1)) else this;
      if s.remaining == Some(0) then s.(timers := s.timers.(countdown := None)) else s
    }

    lemma DecrementEffect()
      ensures var r := Decrement();
        && (remaining.Some? && remaining.value > 0 ==> r.remaining == Some(remaining.value - 1))
        && (!(remaining.Some? && remaining.value > 0) ==> r.remaining == remaining)
        && (r.remaining.Some? ==> r.remaining.value >= 0 || r.remaining == remaining)
        && (r.remaining == Some(0) ==> r.timers.countdown.None?)
        && (r.remaining != Some(0) ==> r.timers.countdown == timers.countdown)
        && r.timers.check == timers.check && r.timers.login == timers.login
        && r.modals == modals && r.loginMethod == loginMethod && r.form == form && r.requests == requests
    {
    }

    /**
     * `onAlternativeLoginLink`: switch between the password and the security key.
     * The error and the password are cleared and the password field toggled; the
     * button is disabled for the password (until one is typed) and enabled for the
     * security key. The second-factor flow is left as it was.
     */
    function ToggleMethod(): (r: Session)
      ensures Valid() ==> r.Valid()
    {
      var m := loginMethod.(withPassword := !loginMethod.withPassword, withSecurityKey := !loginMethod.withSecurityKey);
      var enabled := if m.withPassword then false else if m.withSecurityKey then true else form.buttonEnabled;
      this.(loginMethod := m,
            form := form.(error := "", password := "", passwordFieldShown := !form.passwordFieldShown, buttonEnabled := enabled))
    }

    lemma ToggleMethodEffect()
      ensures var r := ToggleMethod();
        && r.loginMethod == loginMethod.(withPassword := !loginMethod.withPassword, withSecurityKey := !loginMethod.withSecurityKey)
        && r.form.password == "" && r.form.error == ""
        && r.form.passwordFieldShown == !form.passwordFieldShown
        && r.form.alternativeLinkShown == form.alternativeLinkShown
        && (r.loginMethod.withPassword ==> !r.form.buttonEnabled)
        && (!r.loginMethod.withPassword && r.loginMethod.withSecurityKey ==> r.form.buttonEnabled)
        && (!r.loginMethod.withPassword && !r.loginMethod.withSecurityKey ==> r.form.buttonEnabled == form.buttonEnabled)
        && r.remaining == remaining && r.timers == timers && r.modals == modals && r.requests == requests
    {
    }

    /** `validatePassword`: the sign-in button is enabled exactly when the password is long enough. */
    function ValidatePassword(): (r: Session)
      ensures Valid() ==> r.Valid()
    {
      this.(form := form.(buttonEnabled := PasswordAccepted(form.password)))
    }

    lemma ValidatePasswordEffect()
      ensures var r := ValidatePassword();
        && (r.form.buttonEnabled <==> PasswordAccepted(form.password))
        && r.form == form.(buttonEnabled := r.form.buttonEnabled)
        && r.remaining == remaining && r.timers == timers && r.modals == modals && r.loginMethod == loginMethod && r.requests == requests
    {
    }

    /** The `input` event on the password field: the new text is stored and validated. */
    function TypePassword(text: string): (r: Session)
      ensures Valid() ==> r.Valid()
    {
      this.(form := form.(password := text)).ValidatePassword()
    }

    lemma TypePasswordEffect(text: string)
      ensures var r := TypePassword(text);
        && r.form.password == text
        && (r.form.buttonEnabled <==> PasswordAccepted(text))
        && r.form == form.(password := text, buttonEnabled := r.form.buttonEnabled)
        && r.remaining == remaining && r.timers == timers && r.modals == modals && r.loginMethod == loginMethod && r.requests == requests
    {
    }

    /** `login`'s gate: a long enough password for the password method, or the security key. */
    predicate LoginAllowed()
    {
      (loginMethod.withPassword && PasswordAccepted(form.password)) || loginMethod.withSecurityKey
    }

    /**
     * `login`. Past the gate, with a CSRF token, the login is deferred: the flag is
     * set and a passive check goes first, so that a session renewed in another tab
     * is noticed; without a token the submission is made directly. The password is
     * validated (updating the button) only for the password method.
     */
    function Login(page: Page): (r: Session)
      ensures Valid() ==> r.Valid()
    {
      var s := if loginMethod.withPassword then ValidatePassword() else this;
      if !LoginAllowed() then s
      else if page.hasCsrfToken then s.(loginMethod := s.loginMethod.(submitIfLoggedOut := true)).CheckSession(false)
      else if s.loginMethod.withSecurityKey then s.Submit(WebauthnAssertion)
      else if s.loginMethod.mfaFlow then s.Submit(MfaCode)
      else if s.loginMethod.withPassword then s.Submit(PasswordLogin(s.form.password))
      else s
    }

    lemma LoginEffect(page: Page)
      ensures var r := Login(page);
        && (loginMethod.withPassword ==> (r.form.buttonEnabled <==> PasswordAccepted(form.password)))
        && (!loginMethod.withPassword ==> r.form.buttonEnabled == form.buttonEnabled)
        && (!LoginAllowed() ==> r.requests == requests && r.loginMethod == loginMethod)
        && (LoginAllowed() && page.hasCsrfToken ==>
              r.loginMethod == loginMethod.(submitIfLoggedOut := true) && r.requests == requests + [SessionInfo(false)])
        && (LoginAllowed() && !page.hasCsrfToken ==>
              r.loginMethod == loginMethod && r.requests == requests + DirectRequests(loginMethod, form.password))
        && (LoginAllowed() ==> |r.requests| == |requests| + 1)
        && r.remaining == remaining && r.timers == timers && r.modals == modals
    {
    }

    /** `closeModal`: hide the login modal and resume checking the session passively. */
    function CloseModal(): (r: Session)
      ensures Valid() ==> r.Valid()
    {
      HideLogin().CheckSession(false)
    }

    lemma CloseModalEffect()
      ensures var r := CloseModal();
        && !r.modals.showingLogin && !r.modals.hasLoginModal && r.modals.showingWarning == modals.showingWarning
        && r.requests == requests + [SessionInfo(false)]
        && r.remaining == remaining && r.timers == timers && r.loginMethod == loginMethod
    {
    }

    /** `renewSession`: hide the warning and ask for the session to be extended. */
    function RenewSession(): (r: Session)
      ensures Valid() ==> r.Valid()
    {
      HideWarning().CheckSession(true)
    }

    lemma RenewSessionEffect()
      ensures var r := RenewSession();
        && !r.modals.showingWarning && r.modals.showingLogin == modals.showingLogin
        && (modals.hasWarningModal ==> r.timers.countdown.None?)
        && r.timers.login == timers.login
        && r.requests == requests + [SessionInfo(true)]
    {
    }

    /** `logout`: the sign-out request is sent; the redirect that follows is not modelled. */
    function Logout(): (r: Session)
      ensures Valid() ==> r.Valid()
    {
      this.(requests := requests + [SignOut])
    }

    lemma LogoutEffect()
      ensures var r := Logout();
        && r.requests == requests + [SignOut]
        && r.remaining == remaining && r.timers == timers && r.modals == modals && r.loginMethod == loginMethod && r.form == form
    {
    }

    /**
     * The answer to the session-info query. A success updates with its timeout and
     * only afterwards clears the deferred-login flag, so the update still sees it;
     * any failure updates with `-1` and leaves the flag alone.
     */
    function OnSessionInfo(page: Page, result: SessionInfoResult): (r: Session)
      ensures Valid() ==> r.Valid()
    {
      match result
      case SessionInfoSuccess(timeout) =>
        var u := Update(page, timeout);
        u.(loginMethod := u.loginMethod.(submitIfLoggedOut := false))
      case SessionInfoFailure => Update(page, Some(-1))
    }

    lemma OnSessionInfoEffect(page: Page, result: SessionInfoResult)
      ensures var r := OnSessionInfo(page, result);
        && (result.SessionInfoSuccess? ==>
              var u := Update(page, result.timeout);
              r == u.(loginMethod := u.loginMethod.(submitIfLoggedOut := false)))
        && (result.SessionInfoSuccess? ==> !r.loginMethod.submitIfLoggedOut)
        && (result.SessionInfoFailure? ==> r == Update(page, Some(-1)))
        && (result.SessionInfoFailure? ==>
              && !r.modals.showingWarning && !r.modals.showingLogin
              && r.timers.check == Some(CheckInterval)
              && r.loginMethod == loginMethod && r.requests == requests)
    {
    }

    /**
     * The answer to the password submission. With a second factor required the
     * modal stays up and becomes the second-factor form (the password inputs and
     * the alternative link go); any other acceptance closes the modal. A rejection
     * shows the server's message, or the generic one when it is missing or empty.
     */
    function OnPasswordLogin(result: PasswordLoginResult): (r: Session)
      ensures Valid() ==> r.Valid()
    {
      match result
      case LoginAccepted(mfa) =>
        if mfa then this.(loginMethod := loginMethod.(mfaFlow := true),
                          form := form.(alternativeLinkShown := false, passwordFieldShown := false))
        else CloseModal()
      case LoginRejected(message) =>
        ShowLoginError(if message.Some? && message.value != "" then message else None)
    }

    lemma OnPasswordLoginEffect(result: PasswordLoginResult)
      ensures var r := OnPasswordLogin(result);
        && (result == LoginAccepted(true) ==>
              && r.loginMethod == loginMethod.(mfaFlow := true)
              && !r.form.alternativeLinkShown && !r.form.passwordFieldShown
              && r.modals == modals && r.requests == requests)
        && (result == LoginAccepted(false) ==> r == CloseModal())
        && (result.LoginRejected? ==>
              && r.modals == modals && r.loginMethod == loginMethod && r.requests == requests
              && (result.message.Some? && result.message.value != "" ==> r.form.error == result.message.value)
              && (result.message.None? || result.message == Some("") ==> r.form.error == ServerErrorMessage))
    {
    }

    /** The answer to a security-key or second-factor submission: success closes the modal, failure shows the error as given. */
    function OnSecondFactor(result: SecondFactorResult): (r: Session)
      ensures Valid() ==> r.Valid()
    {
      match result
      case FactorAccepted => CloseModal()
      case FactorRejected(error) => ShowLoginError(error)
    }

    lemma OnSecondFactorEffect(result: SecondFactorResult)
      ensures var r := OnSecondFactor(result);
        && (result.FactorAccepted? ==> r == CloseModal())
        && (result.FactorRejected? ==> r == ShowLoginError(result.error))
        && (result == FactorRejected(Some("")) ==> r.form.error == "")
    {
    }

    /** The pending session check fires: its slot empties and a passive check is sent. */
    function OnCheckTimer(): (r: Session)
      ensures Valid() ==> r.Valid()
    {
      this.(timers := timers.(check := None)).CheckSession(false)
    }

    lemma OnCheckTimerEffect()
      ensures var r := OnCheckTimer();
        && r.timers.check.None? && r.requests == requests + [SessionInfo(false)]
        && r.modals == modals && r.loginMethod == loginMethod && r.form == form
    {
    }

    /** The forced-login timer fires: its slot empties and the login modal shows. */
    function OnLoginTimer(page: Page): (r: Session)
      ensures Valid() ==> r.Valid()
    {
      this.(timers := timers.(login := None)).ShowLogin(page)
    }

    lemma OnLoginTimerEffect(page: Page)
      ensures var r := OnLoginTimer(page);
        && r.timers.login.None? && r.modals.showingLogin && !r.modals.showingWarning
        && r.requests == requests
    {
    }

    /** `init`: with a user signed in, update with the remaining time the page was served with. */
    function Init(page: Page, remaining: int): (r: Session)
      ensures Valid() ==> r.Valid()
    {
      if page.hasUsername then Update(page, Some(remaining)) else this
    }

    lemma InitEffect(page: Page, remaining: int)
      ensures var r := Init(page, remaining);
        && (page.hasUsername ==> r == Update(page, Some(remaining)))
        && (!page.hasUsername ==> r == this)
    {
    }
  }

  /** The state of a fresh object: nothing known, nothing pending, nothing built, the password method selected. */
  function Initial(): (s: Session)
    ensures s.Valid()
    ensures s.remaining.None? && s.requests == []
    ensures s.timers == Timers(None, None, None)
    ensures !s.modals.showingWarning && !s.modals.showingLogin
    ensures s.loginMethod == LoginMethod(true, false, false, false)
  {
    Session(None, Timers(None, None, None), Modals(false, false, false, false),
            LoginMethod(true, false, false, false), LoginForm("", false, false, false, ""), [])
  }
}
