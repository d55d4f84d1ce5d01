/**
 * `Craft.AuthManager` as an object. Its fields are the JavaScript fields, grouped
 * in the records of `AuthState` (the timers, the modal flags, the login method, the
 * login form); a modal instance is reduced to whether it exists, the login form's
 * DOM to what it shows. Each method does what the JavaScript method does, step by
 * step, calling the same helpers in the same order, and is specified by the
 * function of the same operation on `Snapshot()`, so everything proved about
 * `AuthState` holds of it. Every method but the building step inside
 * `ShowLoginModal` states that it keeps `Valid()`.
 */
module Auth {
  import opened Wrappers
  import opened AuthState

  class AuthManager {
    /** The page globals this object reads (`Craft.username`, `Craft.requireMfa`, ...). */
    const page: Page

    /** `remainingSessionTime`, `None` while unknown. */
    var remainingSessionTime: Option<int>
    /** `checkRemainingSessionTimer`, `showLoginModalTimer` and `decrementLogoutWarningInterval`. */
    var timers: Timers
    /**
     * `showingLogoutWarningModal`, `showingLoginModal`, and whether `logoutWarningModal`
     * (built once and kept) and `loginModal` (destroyed whenever it is hidden) exist.
     */
    var modals: Modals
    /** `loginWithPassword`, `loginWithSecurityKey`, `mfaFlow` and `submitLoginIfLoggedOut`. */
    var loginMethod: LoginMethod
    /** What the login modal's form shows: `$passwordInput`, the field, the alternative link, `$loginBtn`, `$loginErrorPara`. */
    var form: LoginForm
    /** The calls made to the outside world so far, oldest first. */
    var requests: seq<Request>

    /** The fields as a `Session` value. */
    function Snapshot(): Session
      reads this
    {
      Session(remainingSessionTime, timers, modals, loginMethod, form, requests)
    }

    ghost predicate Valid()
      reads this
    {
      Snapshot().Valid()
    }

    constructor(page: Page)
      ensures this.page == page
      ensures Snapshot() == Initial() && Valid()
    {
      this.page := page;
      remainingSessionTime := None;
      timers := Timers(None, None, None);
      modals := Modals(false, false, false, false);
      loginMethod := LoginMethod(true, false, false, false);
      form := LoginForm("", false, false, false, "");
      requests := [];
    }

    /** `init`, given the remaining time the page was served with. */
    method Init(remaining: int)
      modifies this
      ensures Snapshot() == old(Snapshot()).Init(page, remaining)
      ensures old(Valid()) ==> Valid()
    {
      if page.hasUsername {
        UpdateRemainingSessionTime(Some(remaining));
      }
    }

    method SetCheckRemainingSessionTimer(seconds: int)
      modifies this
      ensures Snapshot() == old(Snapshot()).SetCheckTimer(seconds)
      ensures old(Valid()) ==> Valid()
    {
      timers := timers.(check := Some(seconds));
    }

    method CheckRemainingSessionTime(extendSession: bool)
      modifies this
      ensures Snapshot() == old(Snapshot()).CheckSession(extendSession)
      ensures old(Valid()) ==> Valid()
    {
      requests := requests + [SessionInfo(extendSession)];
    }

    /** The `complete` callback of the session-info query (the CSRF token copy is not modelled). */
    method OnSessionInfo(result: SessionInfoResult)
      modifies this
      ensures Snapshot() == old(Snapshot()).OnSessionInfo(page, result)
      ensures old(Valid()) ==> Valid()
    {
      if result.SessionInfoSuccess? {
        UpdateRemainingSessionTime(result.timeout);
        loginMethod := loginMethod.(submitIfLoggedOut := false);
      } else {
        UpdateRemainingSessionTime(Some(-1));
      }
    }

    method UpdateRemainingSessionTime(t: Option<int>)
      modifies this
      ensures Snapshot() == old(Snapshot()).Update(page, t)
      ensures old(Valid()) ==> Valid()
    {
      remainingSessionTime := t;
      if InWarningWindow(t) {
        if t.value != 0 {
          if !modals.showingWarning {
            ShowLogoutWarningModal();
          }
          if t.value < CheckInterval {
            timers := timers.(login := Some(t.value));
          }
        } else {
          if modals.showingLogin {
            if loginMethod.submitIfLoggedOut {
              if loginMethod.withSecurityKey {
                WebauthnLogin();
              } else if loginMethod.withPassword {
                if loginMethod.mfaFlow {
                  MfaLogin();
                } else {
                  SubmitLogin();
                }
              }
            }
          } else {
            ShowLoginModal();
          }
        }
        SetCheckRemainingSessionTimer(CheckInterval);
      } else {
        HideLogoutWarningModal();
        HideLoginModal();
        if t.Some? && t.value != -1 && t.value < MinSafeSessionTime + CheckInterval {
          SetCheckRemainingSessionTimer(t.value - MinSafeSessionTime + 1);
        } else {
          SetCheckRemainingSessionTimer(CheckInterval);
        }
      }
    }

    method ShowLogoutWarningModal()
      modifies this
      ensures Snapshot() == old(Snapshot()).ShowWarning()
      ensures old(Valid()) ==> Valid()
    {
      if modals.showingLogin {
        HideLoginModal();
      }
      modals := modals.(showingWarning := true, hasWarningModal := true);
      timers := timers.(countdown := Some(CountdownPeriod));
    }

    method DecrementLogoutWarning()
      modifies this
      ensures Snapshot() == old(Snapshot()).Decrement()
      ensures old(Valid()) ==> Valid()
    {
      if remainingSessionTime.Some? && remainingSessionTime.value > 0 {
        remainingSessionTime := Some(remainingSessionTime.value - 1);
      }
      if remainingSessionTime == Some(0) {
        timers := timers.(countdown := None);
      }
    }

    method HideLogoutWarningModal()
      modifies this
      ensures Snapshot() == old(Snapshot()).HideWarning()
      ensures old(Valid()) ==> Valid()
    {
      modals := modals.(showingWarning := false);
      if modals.hasWarningModal {
        timers := timers.(countdown := None);
      }
    }

    method ShowLoginModal()
      modifies this
      ensures Snapshot() == old(Snapshot()).ShowLogin(page)
      ensures old(Valid()) ==> Valid()
    {
      if modals.showingWarning {
        HideLogoutWarningModal();
      }
      modals := modals.(showingLogin := true);
      if !modals.hasLoginModal {
        BuildLoginModal();
      }
    }

    /**
     * The `if (!this.loginModal)` block of `showLoginModal`: choose the method, then
     * build a fresh form for it. It runs after the modal is marked as showing and
     * before it exists, the one point where `Valid()` does not hold.
     */
    method BuildLoginModal()
      modifies this
      ensures Snapshot() == old(Snapshot()).BuildLoginModal(page)
    {
      ChooseLoginMethod();
      var key := loginMethod.withSecurityKey;
      form := LoginForm("", !key, key, key, "");
      modals := modals.(hasLoginModal := true);
    }

    /** The `if (Craft.requireMfa)` block of `showLoginModal`. */
    method ChooseLoginMethod()
      modifies this
      ensures Snapshot() == old(Snapshot()).ChooseMethod(page)
      ensures old(Valid()) ==> Valid()
    {
      if page.requireMfa {
        if page.userHasSecurityKeys && page.webAuthnSupported {
          loginMethod := loginMethod.(withPassword := false, withSecurityKey := true);
        } else {
          loginMethod := loginMethod.(withPassword := true, withSecurityKey := false);
        }
        loginMethod := loginMethod.(mfaFlow := false);
      }
    }

    method OnAlternativeLoginLink()
      modifies this
      ensures Snapshot() == old(Snapshot()).ToggleMethod()
      ensures old(Valid()) ==> Valid()
    {
      ClearLoginError();
      var m := loginMethod.(withPassword := !loginMethod.withPassword, withSecurityKey := !loginMethod.withSecurityKey);
      loginMethod := m;
      var enabled := if m.withPassword then false else if m.withSecurityKey then true else form.buttonEnabled;
      form := form.(password := "", passwordFieldShown := !form.passwordFieldShown, buttonEnabled := enabled);
    }

    method HideLoginModal()
      modifies this
      ensures Snapshot() == old(Snapshot()).HideLogin()
      ensures old(Valid()) ==> Valid()
    {
      modals := modals.(showingLogin := false);
      if modals.hasLoginModal {
        modals := modals.(hasLoginModal := false);
      }
    }

    method Logout()
      modifies this
      ensures Snapshot() == old(Snapshot()).Logout()
      ensures old(Valid()) ==> Valid()
    {
      requests := requests + [SignOut];
    }

    method RenewSession()
      modifies this
      ensures Snapshot() == old(Snapshot()).RenewSession()
      ensures old(Valid()) ==> Valid()
    {
      HideLogoutWarningModal();
      CheckRemainingSessionTime(true);
    }

    /** `validatePassword`: sets the button and answers whether the password is long enough. */
    method ValidatePassword() returns (ok: bool)
      modifies this
      ensures ok <==> PasswordAccepted(old(form.password))
      ensures Snapshot() == old(Snapshot()).ValidatePassword()
      ensures old(Valid()) ==> Valid()
    {
      if |form.password| >= MinPasswordLength {
        form := form.(buttonEnabled := true);
        ok := true;
      } else {
        form := form.(buttonEnabled := false);
        ok := false;
      }
    }

    /** The `input` listener of the password field. */
    method OnPasswordInput(text: string)
      modifies this
      ensures Snapshot() == old(Snapshot()).TypePassword(text)
      ensures old(Valid()) ==> Valid()
    {
      form := form.(password := text);
      var _ := ValidatePassword();
    }

    method Login()
      modifies this
      ensures Snapshot() == old(Snapshot()).Login(page)
      ensures old(Valid()) ==> Valid()
    {
      var proceed := loginMethod.withSecurityKey;
      if loginMethod.withPassword {
        var ok := ValidatePassword();
        proceed := ok || loginMethod.withSecurityKey;
      }
      if proceed {
        if page.hasCsrfToken {
          loginMethod := loginMethod.(submitIfLoggedOut := true);
          CheckRemainingSessionTime(false);
        } else {
          if loginMethod.withSecurityKey {
            WebauthnLogin();
          } else if loginMethod.mfaFlow {
            MfaLogin();
          } else if loginMethod.withPassword {
            SubmitLogin();
          }
        }
      }
    }

    method WebauthnLogin()
      modifies this
      ensures Snapshot() == old(Snapshot()).Submit(WebauthnAssertion)
      ensures old(Valid()) ==> Valid()
    {
      ClearLoginError();
      requests := requests + [WebauthnAssertion];
    }

    method MfaLogin()
      modifies this
      ensures Snapshot() == old(Snapshot()).Submit(MfaCode)
      ensures old(Valid()) ==> Valid()
    {
      ClearLoginError();
      requests := requests + [MfaCode];
    }

    method SubmitLogin()
      modifies this
      ensures Snapshot() == old(Snapshot()).Submit(PasswordLogin(old(form.password)))
      ensures old(Valid()) ==> Valid()
    {
      ClearLoginError();
      requests := requests + [PasswordLogin(form.password)];
    }

    /** The `then` and `catch` callbacks of `submitLogin`. */
    method OnSubmitLoginResponse(result: PasswordLoginResult)
      modifies this
      ensures Snapshot() == old(Snapshot()).OnPasswordLogin(result)
      ensures old(Valid()) ==> Valid()
    {
      match result
      case LoginAccepted(mfa) =>
        if mfa {
          loginMethod := loginMethod.(mfaFlow := true);
          form := form.(alternativeLinkShown := false, passwordFieldShown := false);
        } else {
          CloseModal();
        }
      case LoginRejected(message) =>
        ShowLoginError(if message.Some? && message.value != "" then message else None);
    }

    /** The `then` and `catch` callbacks of `webauthnLogin` and `mfaLogin`. */
    method OnSecondFactorResponse(result: SecondFactorResult)
      modifies this
      ensures Snapshot() == old(Snapshot()).OnSecondFactor(result)
      ensures old(Valid()) ==> Valid()
    {
      match result
      case FactorAccepted => CloseModal();
      case FactorRejected(error) => ShowLoginError(error);
    }

    method ShowLoginError(error: Option<string>)
      modifies this
      ensures Snapshot() == old(Snapshot()).ShowLoginError(error)
      ensures old(Valid()) ==> Valid()
    {
      var text := if error.None? then ServerErrorMessage else error.value;
      form := form.(error := text);
    }

    method ClearLoginError()
      modifies this
      ensures Snapshot() == old(Snapshot()).ShowLoginError(Some(""))
      ensures old(Valid()) ==> Valid()
    {
      ShowLoginError(Some(""));
    }

    method CloseModal()
      modifies this
      ensures Snapshot() == old(Snapshot()).CloseModal()
      ensures old(Valid()) ==> Valid()
    {
      HideLoginModal();
      CheckRemainingSessionTime(false);
    }

    /** The callback of `checkRemainingSessionTimer`. */
    method OnCheckRemainingSessionTimer()
      modifies this
      ensures Snapshot() == old(Snapshot()).OnCheckTimer()
      ensures old(Valid()) ==> Valid()
    {
      timers := timers.(check := None);
      CheckRemainingSessionTime(false);
    }

    /** The callback of `showLoginModalTimer`. */
    method OnShowLoginModalTimer()
      modifies this
      ensures Snapshot() == old(Snapshot()).OnLoginTimer(page)
      ensures old(Valid()) ==> Valid()
    {
      timers := timers.(login := None);
      ShowLoginModal();
    }
  }
}
