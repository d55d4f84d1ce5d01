# Craft CMS session watcher and MySQL schema helpers, in Dafny

This project models two parts of Craft CMS and proves properties of the models.

**`Craft.AuthManager`** is the control panel's session-expiry watcher
(`src/web/assets/cp/src/js/AuthManager.js`). It asks the server how long the
session has left. It re-checks at the right moments. Shortly before the session
ends it shows a logout warning with a countdown. When the session has ended it
shows a login modal, in which the user signs in again by password, security key
or second-factor code. The model is split three ways:

- `AuthState` (`auth_state.dfy`) holds the object's state as a `Session` value.
  Each JavaScript method is a function on that value that keeps the invariant
  `Session.Valid`: never both modals; a countdown only while the warning shows;
  a login form exactly while the login modal shows; exactly one of password or
  security key chosen. Beside each function, an `…Effect` lemma states what the
  operation does.
- `Auth` (`auth_manager.dfy`) is the object itself: a class `AuthManager` whose
  fields change in place. Each method makes the same calls in the same order as
  its JavaScript method. Its `ensures` ties the new fields to the `AuthState`
  function of the old ones, and states that the method keeps `Valid()`. The one
  exception is the building step inside `ShowLoginModal`, which runs while the
  invariant is briefly broken.
- `AuthProperties` (`auth_properties.dfy`) states properties that span several
  events. The invariant holds for every event sequence. It also covers the
  countdown, the method toggle, the update's idempotence and the worked
  scenarios.

The class groups the JavaScript fields in records:

- `timers.check` is `checkRemainingSessionTimer`, `timers.login` is
  `showLoginModalTimer`, and `timers.countdown` is
  `decrementLogoutWarningInterval`. Each holds its delay in seconds while armed.
- `modals.showingWarning` is `showingLogoutWarningModal` and
  `modals.showingLogin` is `showingLoginModal`.
- `modals.hasWarningModal` and `modals.hasLoginModal` say whether
  `logoutWarningModal` and `loginModal` exist.
- `loginMethod.withPassword` is `loginWithPassword`,
  `loginMethod.withSecurityKey` is `loginWithSecurityKey`,
  `loginMethod.mfaFlow` is `mfaFlow`, and `loginMethod.submitIfLoggedOut` is
  `submitLoginIfLoggedOut`.
- `form` is what the login modal shows: the password text, whether the
  password field and the alternative-login link are present, whether the login
  button is enabled, and the error text.

The page globals (`Craft.username`, `Craft.requireMfa`, `Craft.userHasSecurityKeys`,
WebAuthn support, the CSRF token) form the constant `page`. Every request sent to
the server is appended to `requests`, and every server answer is an event
parameter.

**The MySQL schema helpers** (`src/db/mysql/Schema.php`) are in `MysqlSchema`
(`mysql_schema.dfy`). They are:

- database-name quoting;
- savepoint release and rollback that tolerate a missing savepoint;
- index discovery in a `SHOW CREATE TABLE` statement;
- the text of the dump configuration file;
- the default backup and restore commands.

Index discovery rests on two supporting modules. `KeyPattern` (`key_pattern.dfy`) is
the regular expression `/KEY\s+([^\(\s]+)\s*\(([^\(\)]+)\)/mi` applied by
`preg_match_all`, written as an explicit matcher and a left-to-right scan.
`Strings` (`strings.dfy`) holds the string functions PHP provides: `str_replace`
of one character, `explode`, `implode` and `trim`.

## Model

| member | source | states |
|---|---|---|
| Strings.Count | src/db/mysql/Schema.php:190 | the number of occurrences of a character, the measure the column count is stated in |
| Strings.Remove | src/db/mysql/Schema.php:190 | removing backticks leaves no backtick, drops exactly as many characters as there were backticks, and adds no character |
| Strings.RemoveAppend | src/db/mysql/Schema.php:190 | removal works piece by piece: what is kept of `a + b` is what is kept of `a`, then what is kept of `b`, so the kept characters stay in their order |
| Strings.RemoveOne | src/db/mysql/Schema.php:190 | a single character is dropped when it is the removed one and kept otherwise; with `RemoveAppend` this fixes the result of `str_replace` |
| Strings.RemoveKeepsCount | src/db/mysql/Schema.php:190 | removing backticks keeps the number of commas, so the number of columns is unchanged |
| Strings.Split | src/db/mysql/Schema.php:190 | `explode` on a character gives one more piece than there are separators, and no piece holds the separator |
| Strings.Join | src/db/mysql/Schema.php:190 | `implode`: the pieces in order with the separator between them |
| Strings.JoinSplit | src/db/mysql/Schema.php:190 | joining the pieces of `explode` with the separator gives back the original text: nothing is lost or reordered |
| Strings.TrimLeft | src/db/mysql/Schema.php:190 | the leading trimmable characters dropped: the result is a suffix, everything dropped is trimmable, and the result does not start with a trimmable character |
| Strings.TrimRight | src/db/mysql/Schema.php:190 | the trailing trimmable characters dropped: the result is a prefix, everything dropped is trimmable, and the result does not end with a trimmable character |
| Strings.Trim | src/db/mysql/Schema.php:190 | `trim` returns a contiguous slice of its input; everything it strips is PHP-trimmable whitespace; the result neither starts nor ends with it |
| KeyPattern.RunEnd | src/db/mysql/Schema.php:186 | a greedy character-class run: every character up to the end is in the class, and the next one is not |
| KeyPattern.MatchAt | src/db/mysql/Schema.php:186 | a match found at a position starts there and ends, non-empty, inside the text |
| KeyPattern.MatchAtSound | src/db/mysql/Schema.php:186 | every match found is an instance of the pattern: `KEY` in any case, whitespace, a name, optional whitespace, then parenthesised columns |
| KeyPattern.MatchAtComplete | src/db/mysql/Schema.php:186 | every instance of the pattern at a position is found there, with exactly that name and those columns |
| KeyPattern.MatcherOf | src/db/mysql/Schema.php:186-187 | the matcher only reports matches that advance past their start, so the scan makes progress |
| KeyPattern.Scan | src/db/mysql/Schema.php:187 | the scan lists matches left to right, each the matcher's match at its own start, without overlap |
| KeyPattern.ScanMissesNoneBefore | src/db/mysql/Schema.php:187 | no match begins before the first listed match |
| KeyPattern.ScanMissesNoneBetween | src/db/mysql/Schema.php:187 | no match begins between two consecutive listed matches |
| KeyPattern.ScanMissesNoneAfter | src/db/mysql/Schema.php:187 | no match begins after the last listed match |
| KeyPattern.AllMatches | src/db/mysql/Schema.php:187 | `preg_match_all` with `PREG_SET_ORDER`: the scan from the start of the text, its matches in order and without overlap |
| KeyPattern.AllMatchesAreMatches | src/db/mysql/Schema.php:187 | each match `preg_match_all` reports is the pattern's match at its start |
| KeyPattern.ScanCovers | src/db/mysql/Schema.php:187 | every position where the matcher matches lies inside some listed match |
| KeyPattern.AllMatchesComplete | src/db/mysql/Schema.php:187 | every position where the pattern matches lies inside a reported match |
| KeyPattern.MatchAtCaptures | src/db/mysql/Schema.php:186 | the captured name is non-empty with no whitespace or `(`, and the captured columns are non-empty with no parentheses |
| KeyPattern.CapturesWellFormed | src/db/mysql/Schema.php:186-188 | the same holds for every match reported |
| MysqlSchema.QuoteDatabaseName | src/db/mysql/Schema.php:75-78 | the name wrapped in one backtick on each side and otherwise unchanged |
| MysqlSchema.IsMissingSavepoint | src/db/mysql/Schema.php:93 | the error both methods swallow: SQLSTATE 42000 with driver code 1305 |
| MysqlSchema.FilterMissingSavepoint | src/db/mysql/Schema.php:93-99 | the shared `catch`: a success passes through; exactly the missing-savepoint error becomes a warning with the given prefix and the exception's message; every other exception is rethrown unchanged |
| MysqlSchema.ReleaseSavepoint | src/db/mysql/Schema.php:87-100 | success passes through; an exception with SQLSTATE 42000 and driver code 1305 becomes a logged warning with the exception's message; any other exception is rethrown unchanged (both directions) |
| MysqlSchema.RollBackSavepoint | src/db/mysql/Schema.php:108-120 | the same filter for rollback, with the rollback warning text |
| MysqlSchema.IndexName | src/db/mysql/Schema.php:189 | the stored name holds no backtick and only characters of the first capture |
| MysqlSchema.UntrimmedColumns | src/db/mysql/Schema.php:190 | the backtick-free second capture exploded on commas: one more piece than the capture has commas, none holding a comma |
| MysqlSchema.TrimEach | src/db/mysql/Schema.php:190 | each column name is trimmed, and the order and count are kept |
| MysqlSchema.IndexColumns | src/db/mysql/Schema.php:190 | the stored column list: each piece of `UntrimmedColumns` trimmed |
| MysqlSchema.Stored | src/db/mysql/Schema.php:184-193 | the map the loop builds, one assignment per match in order; every match's name is a key |
| MysqlSchema.NamesOf | src/db/mysql/Schema.php:187-192 | the name of every match is among the index names |
| MysqlSchema.NamesOfOnlyNames | src/db/mysql/Schema.php:187-192 | every index name is the name of some match |
| MysqlSchema.StoredKeys | src/db/mysql/Schema.php:184-195 | the map's keys are exactly the names of the matches |
| MysqlSchema.StoredLastWins | src/db/mysql/Schema.php:191 | when several matches share a name, the map holds the columns of the last one |
| MysqlSchema.StoreIndexes | src/db/mysql/Schema.php:187-193 | the loop builds the map of all matches, assigning one match at a time |
| MysqlSchema.FindIndexes | src/db/mysql/Schema.php:179-195 | one entry per index name found, holding the columns of the last match with that name; no match gives an empty map |
| MysqlSchema.IndexNameShape | src/db/mysql/Schema.php:186-189 | an index name holds no backtick, no `(` and no whitespace |
| MysqlSchema.IndexColumnsShape | src/db/mysql/Schema.php:190 | there are as many columns as commas plus one; each column is trimmed and holds no backtick, comma or parenthesis |
| MysqlSchema.ColumnCharacter | src/db/mysql/Schema.php:190 | a character of a column holds no backtick, comma or parenthesis when the captured text has no parentheses |
| MysqlSchema.IndexColumnsInOrder | src/db/mysql/Schema.php:190 | the untrimmed columns joined with commas are the capture without backticks, so the columns keep their order |
| MysqlSchema.DumpConfigPath | src/db/mysql/Schema.php:230 | the file is `my.cnf` in the temporary directory |
| MysqlSchema.DumpConfigLines | src/db/mysql/Schema.php:233-237 | the five lines of the file, in file order |
| MysqlSchema.DumpConfigContents | src/db/mysql/Schema.php:233-237 | the file text: the five lines joined by the line ending |
| MysqlSchema.DumpConfigText | src/db/mysql/Schema.php:233-237 | the file text is `[client]`, `user=`, `password=`, `host=` and `port=` lines in that order, with the line ending between them and none at the end |
| MysqlSchema.DumpConfigReadsBack | src/db/mysql/Schema.php:233-237 | with `\n` endings and settings free of newlines, reading the file line by line gives back the five lines, `[client]` first |
| MysqlSchema.ConfigOptionHasNoSpace | src/db/mysql/Schema.php:230 | the `--defaults-extra-file=` option naming `my.cnf` holds no space when the temporary path holds none |
| MysqlSchema.DefaultBackupCommand | src/db/mysql/Schema.php:135-149 | `getDefaultBackupCommand`: the program, the configuration option, the eight options, the result file and the database, separated by spaces |
| MysqlSchema.BackupCommandHead | src/db/mysql/Schema.php:137-138 | the backup command starts with `mysqldump --defaults-extra-file=<temp>/my.cnf ` |
| MysqlSchema.BackupCommandTail | src/db/mysql/Schema.php:147-148 | the backup command ends with ` --result-file={file} {database}` |
| MysqlSchema.BackupCommandWords | src/db/mysql/Schema.php:135-149 | split at spaces, the backup command gives back its arguments in order, and the program run is `mysqldump` |
| MysqlSchema.DefaultRestoreCommand | src/db/mysql/Schema.php:157-163 | `getDefaultRestoreCommand` as written, with `mysqldump` as its program |
| MysqlSchema.CorrectedRestoreCommand | src/db/mysql/Schema.php:157-163 | the same command with the `mysql` client as its program |
| MysqlSchema.RestoreCommandText | src/db/mysql/Schema.php:157-163 | the restore command is the program, the configuration option, `{database}`, `<` and `{file}`, separated by spaces |
| MysqlSchema.RestoreCommandShape | src/db/mysql/Schema.php:161-162 | the restore command ends with ` {database} < {file}` |
| MysqlSchema.RestoreCommandWords | src/db/mysql/Schema.php:157-163 | split at spaces, the restore command gives back its five words, and the program run is the first |
| MysqlSchema.RestoreAsWrittenRunsDumpTool | src/db/mysql/Schema.php:157-163 | `DefaultRestoreCommand`, the command as written, runs `mysqldump`, not the `mysql` client |
| MysqlSchema.RestoreRunsClient | src/db/mysql/Schema.php:157-163 | `CorrectedRestoreCommand` runs `mysql` on `{database}`, reading `{file}` |
| AuthState.NextCheckDelay | src/web/assets/cp/src/js/AuthManager.js:134-153 | the next check is 1 to 60 seconds away. It is 60 in the warning window, when the time is unknown, after a failed check, and from 180 seconds up. From 120 to 179 seconds it is just long enough to land one second under the 120-second safe time |
| AuthState.NextCheckCatchesWindow | src/web/assets/cp/src/js/AuthManager.js:143-150 | a check scheduled from a safe session never lands later than one second under the safe time, and lands exactly there when the window is near |
| AuthState.FreshForm | src/web/assets/cp/src/js/AuthManager.js:339-359 | a new login form is empty with no error; it shows the password field for a password login, and the enabled button and the alternative link for a security-key login |
| AuthState.InWarningWindow | src/web/assets/cp/src/js/AuthManager.js:93-96 | the warning window: a known time, not the failure value -1, under the 120-second safe time |
| AuthState.DeferredRequests | src/web/assets/cp/src/js/AuthManager.js:116-127 | a login deferred until expiry sends at most one request: the security-key assertion first, then the second-factor code, then the password |
| AuthState.DirectRequests | src/web/assets/cp/src/js/AuthManager.js:492-498 | the direct dispatch of `login` sends at most one request, tested in the order security key, second-factor code, password; nothing only when no method and no second-factor flow is set |
| AuthState.DispatchOrdersAgree | src/web/assets/cp/src/js/AuthManager.js:492-498 | when a method is chosen, the direct dispatch of `login` sends the same single request as the deferred dispatch at expiry |
| AuthState.DispatchOrdersDifferWithoutMethod | src/web/assets/cp/src/js/AuthManager.js:492-498 | the two dispatches differ only where neither method is chosen, a state the invariant rules out |
| AuthState.Initial | src/web/assets/cp/src/js/AuthManager.js:10-31 | the initial fields: no timers, no modals, no requests, unknown time, password login; the invariant holds |
| AuthState.Session.ShowWarning | src/web/assets/cp/src/js/AuthManager.js:159-222 | showing the warning keeps the invariant |
| AuthState.Session.ShowWarningEffect | src/web/assets/cp/src/js/AuthManager.js:159-220 | the warning shows and exists; a showing login modal is hidden and destroyed; the countdown starts; nothing else changes |
| AuthState.Session.HideWarning | src/web/assets/cp/src/js/AuthManager.js:251-265 | hiding the warning keeps the invariant |
| AuthState.Session.HideWarningEffect | src/web/assets/cp/src/js/AuthManager.js:251-265 | the warning no longer shows; if it exists, its countdown stops; nothing else changes |
| AuthState.Session.HideLogin | src/web/assets/cp/src/js/AuthManager.js:431-444 | hiding the login modal keeps the invariant |
| AuthState.Session.HideLoginEffect | src/web/assets/cp/src/js/AuthManager.js:431-444 | the login modal no longer shows and is destroyed; nothing else changes |
| AuthState.Session.ChooseMethodEffect | src/web/assets/cp/src/js/AuthManager.js:283-293 | under `requireMfa` the security key is chosen exactly when the user has keys and WebAuthn works, otherwise the password, and the second-factor flow resets; without it nothing changes |
| AuthState.Session.BuildLoginModalEffect | src/web/assets/cp/src/js/AuthManager.js:282-391 | building the modal chooses the method and gives a fresh form for it |
| AuthState.Session.ShowLogin | src/web/assets/cp/src/js/AuthManager.js:270-398 | showing the login modal keeps the invariant |
| AuthState.Session.ShowLoginEffect | src/web/assets/cp/src/js/AuthManager.js:270-398 | the login modal shows and the warning hides with its countdown; with no warning showing, the countdown is kept; a new modal gets the method `ChooseMethod` picks and a fresh form for it; an existing one keeps its form and method; the other timers and the requests are kept |
| AuthState.Session.SetCheckTimer | src/web/assets/cp/src/js/AuthManager.js:46-55 | re-arming the check timer keeps the invariant |
| AuthState.Session.SetCheckTimerEffect | src/web/assets/cp/src/js/AuthManager.js:46-55 | the check timer is replaced with the new delay; nothing else changes |
| AuthState.Session.CheckSession | src/web/assets/cp/src/js/AuthManager.js:60-84 | sending the session-info query keeps the invariant |
| AuthState.Session.CheckSessionEffect | src/web/assets/cp/src/js/AuthManager.js:60-67 | one session-info query with the given extend flag is sent; nothing else changes |
| AuthState.Session.ShowLoginError | src/web/assets/cp/src/js/AuthManager.js:572-585 | setting the error text keeps the invariant |
| AuthState.Session.ShowLoginErrorEffect | src/web/assets/cp/src/js/AuthManager.js:572-581 | the error shown is the given text, or the server-error message when none is given; nothing else changes |
| AuthState.Session.Submit | src/web/assets/cp/src/js/AuthManager.js:503-570 | sending a login request keeps the invariant |
| AuthState.Session.SubmitEffect | src/web/assets/cp/src/js/AuthManager.js:503-546 | the error is cleared and exactly the one request is sent |
| AuthState.Session.SubmitDeferredLogin | src/web/assets/cp/src/js/AuthManager.js:116-127 | the deferred submission keeps the invariant |
| AuthState.Session.SubmitDeferredLoginEffect | src/web/assets/cp/src/js/AuthManager.js:116-127 | it sends what the deferred dispatch chooses, with the typed password; modals and method are kept |
| AuthState.Session.Update | src/web/assets/cp/src/js/AuthManager.js:89-154 | every update of the remaining time keeps the invariant |
| AuthState.Session.UpdateEffect | src/web/assets/cp/src/js/AuthManager.js:89-154 | the time is recorded, and the next check is re-armed with the delay the schedule gives |
| AuthState.Session.UpdateOutsideWindow | src/web/assets/cp/src/js/AuthManager.js:135-153 | outside the warning window both modals hide and nothing is sent |
| AuthState.Session.UpdateInWindow | src/web/assets/cp/src/js/AuthManager.js:97-114 | in the window the warning shows, with the countdown started only if it was not already showing; under 60 seconds the forced-login timer is armed for the remaining time |
| AuthState.Session.UpdateAtZero | src/web/assets/cp/src/js/AuthManager.js:115-134 | at zero the login modal shows; if it already showed, a waiting login is submitted; otherwise nothing is sent |
| AuthState.Session.Decrement | src/web/assets/cp/src/js/AuthManager.js:237-246 | a countdown tick keeps the invariant |
| AuthState.Session.DecrementEffect | src/web/assets/cp/src/js/AuthManager.js:237-246 | a positive time drops by one second and never goes below zero; at zero the countdown stops |
| AuthState.Session.ToggleMethod | src/web/assets/cp/src/js/AuthManager.js:400-426 | switching the login method keeps the invariant |
| AuthState.Session.ToggleMethodEffect | src/web/assets/cp/src/js/AuthManager.js:400-426 | both method flags flip, the error and password clear, the password field toggles, and the button is disabled for a password and enabled for a security key |
| AuthState.Session.ValidatePassword | src/web/assets/cp/src/js/AuthManager.js:465-475 | validation keeps the invariant |
| AuthState.Session.ValidatePasswordEffect | src/web/assets/cp/src/js/AuthManager.js:465-475 | the button is enabled exactly when the password has at least 6 characters; nothing else changes |
| AuthState.Session.TypePassword | src/web/assets/cp/src/js/AuthManager.js:389 | typing keeps the invariant |
| AuthState.Session.TypePasswordEffect | src/web/assets/cp/src/js/AuthManager.js:389 | the text is recorded, and the button is enabled exactly when it has at least 6 characters |
| AuthState.Session.LoginAllowed | src/web/assets/cp/src/js/AuthManager.js:482-485 | `login`'s gate: the password method with a password of at least 6 characters, or the security key |
| AuthState.Session.Login | src/web/assets/cp/src/js/AuthManager.js:477-501 | a login attempt keeps the invariant |
| AuthState.Session.LoginEffect | src/web/assets/cp/src/js/AuthManager.js:477-501 | a password login with a short password sends nothing; otherwise, with a CSRF token, it checks the session first and arms the deferred login; without one it dispatches directly; in every allowed case it sends one request |
| AuthState.Session.CloseModal | src/web/assets/cp/src/js/AuthManager.js:587-591 | closing keeps the invariant |
| AuthState.Session.CloseModalEffect | src/web/assets/cp/src/js/AuthManager.js:587-591 | the login modal hides and is destroyed, and one passive session check is sent |
| AuthState.Session.RenewSession | src/web/assets/cp/src/js/AuthManager.js:456-463 | renewing keeps the invariant |
| AuthState.Session.RenewSessionEffect | src/web/assets/cp/src/js/AuthManager.js:456-463 | the warning hides, its countdown stops, and one extending session check is sent; the forced-login timer is not cleared |
| AuthState.Session.Logout | src/web/assets/cp/src/js/AuthManager.js:446-454 | logging out keeps the invariant |
| AuthState.Session.LogoutEffect | src/web/assets/cp/src/js/AuthManager.js:446-454 | one sign-out request is sent; nothing else changes |
| AuthState.Session.OnSessionInfo | src/web/assets/cp/src/js/AuthManager.js:68-82 | every answer to the session-info query keeps the invariant |
| AuthState.Session.OnSessionInfoEffect | src/web/assets/cp/src/js/AuthManager.js:68-82 | a success updates the time and disarms the deferred login; a failure is an update with -1: both modals hide and the next check is in 60 seconds |
| AuthState.Session.OnPasswordLogin | src/web/assets/cp/src/js/AuthManager.js:547-569 | every answer to the password login keeps the invariant |
| AuthState.Session.OnPasswordLoginEffect | src/web/assets/cp/src/js/AuthManager.js:547-569 | a second-factor request switches the flow in place and removes the password inputs; a plain success closes the modal; a rejection shows the server's message, or the server-error text when the message is missing or empty |
| AuthState.Session.OnSecondFactor | src/web/assets/cp/src/js/AuthManager.js:511-517 | every answer to a security-key or code login keeps the invariant |
| AuthState.Session.OnSecondFactorEffect | src/web/assets/cp/src/js/AuthManager.js:511-517 | success closes the modal, and failure shows the error given |
| AuthState.Session.OnCheckTimer | src/web/assets/cp/src/js/AuthManager.js:51-54 | the check timer firing keeps the invariant |
| AuthState.Session.OnCheckTimerEffect | src/web/assets/cp/src/js/AuthManager.js:51-54 | the check timer is spent, and one passive session check is sent |
| AuthState.Session.OnLoginTimer | src/web/assets/cp/src/js/AuthManager.js:110-113 | the forced-login timer firing keeps the invariant |
| AuthState.Session.OnLoginTimerEffect | src/web/assets/cp/src/js/AuthManager.js:110-113 | the timer is spent and the login modal shows in place of the warning; nothing is sent |
| AuthState.Session.Init | src/web/assets/cp/src/js/AuthManager.js:37-41 | initialisation keeps the invariant |
| AuthState.Session.InitEffect | src/web/assets/cp/src/js/AuthManager.js:37-41 | with a signed-in user it is an update with the served time; otherwise nothing happens |
| AuthProperties.Apply | src/web/assets/cp/src/js/AuthManager.js:37-591 | every event the object handles keeps the invariant |
| AuthProperties.Run | src/web/assets/cp/src/js/AuthManager.js:37-591 | any sequence of events keeps the invariant |
| AuthProperties.NeverBothModals | src/web/assets/cp/src/js/AuthManager.js:159-169 | after any events from creation, the warning and the login modal never show together, and exactly one login method is chosen |
| AuthProperties.TicksCountDown | src/web/assets/cp/src/js/AuthManager.js:237-246 | from k seconds, n ticks leave k - n seconds, or zero once k ticks have passed; the countdown then stops and nothing else changes |
| AuthProperties.ToggleTwice | src/web/assets/cp/src/js/AuthManager.js:400-426 | toggling twice restores the method and the visible controls, with the password and error cleared |
| AuthProperties.ToggleTwiceOnFreshForm | src/web/assets/cp/src/js/AuthManager.js:400-426 | on a fresh form, toggling twice restores the whole state |
| AuthProperties.UpdateIdempotent | src/web/assets/cp/src/js/AuthManager.js:89-154 | repeating an update with the same non-zero time changes nothing |
| AuthProperties.UpdateAtZeroResubmits | src/web/assets/cp/src/js/AuthManager.js:115-127 | at zero with the login modal up and a deferred login, each repeated update sends the login again |
| AuthProperties.ScenarioSafeSession | src/web/assets/cp/src/js/AuthManager.js:135-153 | an answer of 300 seconds schedules the next check in 60, with no modal and no request |
| AuthProperties.ScenarioWarningWithoutForcedLogin | src/web/assets/cp/src/js/AuthManager.js:97-114 | an answer of 90 seconds shows the warning, arms no forced login, and checks again in 60 |
| AuthProperties.ScenarioWarningWithForcedLogin | src/web/assets/cp/src/js/AuthManager.js:97-114 | an answer of 30 seconds shows the warning and arms the forced login for 30 seconds |
| AuthProperties.ScenarioFailedCheck | src/web/assets/cp/src/js/AuthManager.js:78-81 | a failed check records -1, hides both modals and checks again in 60 seconds |
| AuthProperties.ScenarioRenewedElsewhere | src/web/assets/cp/src/js/AuthManager.js:477-501 | a login with a CSRF token while the session is alive in another tab sends only the check, then closes the modal without sending credentials |
| AuthProperties.ScenarioConfirmedExpiry | src/web/assets/cp/src/js/AuthManager.js:115-127 | when the check confirms expiry, the password is sent exactly once |
| AuthProperties.ScenarioSecondFactorRequired | src/web/assets/cp/src/js/AuthManager.js:549-557 | a second-factor answer keeps the modal, switches the flow and removes the password inputs |
| AuthProperties.StaleLoginTimerSurvivesRenewal | src/web/assets/cp/src/js/AuthManager.js:104-114 | a forced-login timer armed at 30 seconds outlives a renewal to an hour, and shows the login modal over a live session |
| AuthProperties.StaleSecondFactorFlow | src/web/assets/cp/src/js/AuthManager.js:283-293 | without `requireMfa` nothing resets the second-factor flow, so the next login modal sends a code where a password is typed |
| Auth.AuthManager.constructor | src/web/assets/cp/src/js/AuthManager.js:10-31 | the fields start in the initial state |
| Auth.AuthManager.Init | src/web/assets/cp/src/js/AuthManager.js:37-41 | the fields become those of `Session.Init` |
| Auth.AuthManager.SetCheckRemainingSessionTimer | src/web/assets/cp/src/js/AuthManager.js:46-55 | the fields become those of `Session.SetCheckTimer` |
| Auth.AuthManager.CheckRemainingSessionTime | src/web/assets/cp/src/js/AuthManager.js:60-84 | the fields become those of `Session.CheckSession` |
| Auth.AuthManager.OnSessionInfo | src/web/assets/cp/src/js/AuthManager.js:68-82 | the fields become those of `Session.OnSessionInfo` |
| Auth.AuthManager.UpdateRemainingSessionTime | src/web/assets/cp/src/js/AuthManager.js:89-154 | the fields become those of `Session.Update` |
| Auth.AuthManager.ShowLogoutWarningModal | src/web/assets/cp/src/js/AuthManager.js:159-222 | the fields become those of `Session.ShowWarning` |
| Auth.AuthManager.DecrementLogoutWarning | src/web/assets/cp/src/js/AuthManager.js:237-246 | the fields become those of `Session.Decrement` |
| Auth.AuthManager.HideLogoutWarningModal | src/web/assets/cp/src/js/AuthManager.js:251-265 | the fields become those of `Session.HideWarning` |
| Auth.AuthManager.ShowLoginModal | src/web/assets/cp/src/js/AuthManager.js:270-398 | the fields become those of `Session.ShowLogin` |
| Auth.AuthManager.BuildLoginModal | src/web/assets/cp/src/js/AuthManager.js:282-391 | the fields become those of `Session.BuildLoginModal` |
| Auth.AuthManager.ChooseLoginMethod | src/web/assets/cp/src/js/AuthManager.js:283-293 | the fields become those of `Session.ChooseMethod` |
| Auth.AuthManager.OnAlternativeLoginLink | src/web/assets/cp/src/js/AuthManager.js:400-426 | the fields become those of `Session.ToggleMethod` |
| Auth.AuthManager.HideLoginModal | src/web/assets/cp/src/js/AuthManager.js:431-444 | the fields become those of `Session.HideLogin` |
| Auth.AuthManager.Logout | src/web/assets/cp/src/js/AuthManager.js:446-454 | the fields become those of `Session.Logout` |
| Auth.AuthManager.RenewSession | src/web/assets/cp/src/js/AuthManager.js:456-463 | the fields become those of `Session.RenewSession` |
| Auth.AuthManager.ValidatePassword | src/web/assets/cp/src/js/AuthManager.js:465-475 | the answer is true exactly when the password has at least 6 characters, and the fields become those of `Session.ValidatePassword` |
| Auth.AuthManager.OnPasswordInput | src/web/assets/cp/src/js/AuthManager.js:389 | the fields become those of `Session.TypePassword` |
| Auth.AuthManager.Login | src/web/assets/cp/src/js/AuthManager.js:477-501 | the fields become those of `Session.Login` |
| Auth.AuthManager.WebauthnLogin | src/web/assets/cp/src/js/AuthManager.js:503-518 | the error clears and one security-key assertion is sent |
| Auth.AuthManager.MfaLogin | src/web/assets/cp/src/js/AuthManager.js:520-537 | the error clears and one second-factor code is sent |
| Auth.AuthManager.SubmitLogin | src/web/assets/cp/src/js/AuthManager.js:539-546 | the error clears and one password login with the typed password is sent |
| Auth.AuthManager.OnSubmitLoginResponse | src/web/assets/cp/src/js/AuthManager.js:547-569 | the fields become those of `Session.OnPasswordLogin` |
| Auth.AuthManager.OnSecondFactorResponse | src/web/assets/cp/src/js/AuthManager.js:511-517 | the fields become those of `Session.OnSecondFactor` |
| Auth.AuthManager.ShowLoginError | src/web/assets/cp/src/js/AuthManager.js:572-581 | the fields become those of `Session.ShowLoginError` |
| Auth.AuthManager.ClearLoginError | src/web/assets/cp/src/js/AuthManager.js:583-585 | the error text becomes empty and nothing else changes |
| Auth.AuthManager.CloseModal | src/web/assets/cp/src/js/AuthManager.js:587-591 | the fields become those of `Session.CloseModal` |
| Auth.AuthManager.OnCheckRemainingSessionTimer | src/web/assets/cp/src/js/AuthManager.js:51-54 | the fields become those of `Session.OnCheckTimer` |
| Auth.AuthManager.OnShowLoginModalTimer | src/web/assets/cp/src/js/AuthManager.js:110-113 | the fields become those of `Session.OnLoginTimer` |

## Left out

- The DOM, jQuery and Garnish are reduced to what the user can see and use:
  which modal shows, the form's controls and the error text. Left out are
  markup, labels, translations, animations, focus, the shake and modal sizing.
- `updateLogoutWarningMessage` (lines 227-235) only formats text for the warning, so it is left out.
  The countdown's number is `remaining`.
- The `onFadeOut` handler that clears the password field when the login modal
  fades is left out: the modal is destroyed on hiding, and a rebuilt modal starts
  with an empty form.
- The timers record their delay and fire only when an event says so, because
  there is no clock. `setTimeout` and `setInterval` each hold at most one pending callback
  per field. When `showLogoutWarningModal` runs while a countdown interval is already
  running, the source starts a second interval and keeps only the newest handle.
  The model keeps one countdown.
- Requests are recorded, not performed, and server answers arrive as events.
  The AJAX layer, the redirect after sign-out, the copy of a CSRF token from the
  session-info answer (lines 71-76) and the `Craft.Auth2fa`/`Auth2faLogin`
  objects, with the second-factor form's HTML, are left out.
- The server's answer is a number or unknown. A `timeout` that `parseInt` cannot
  read becomes `None`. JavaScript numbers are modelled as integers and string
  lengths as sequence lengths. UTF-16 code-unit counts, which can differ for
  characters outside the Basic Multilingual Plane, are not modelled.
- `Session.ShowLoginError`: the source throws a `TypeError` when no login modal
  exists (line 580). That happens when a login answer arrives after the modal was
  destroyed. For example, a session check that answers 300 while a password
  request is in flight hides the modal (line 138), and the request's error handler
  then runs. The model leaves out the exception and records the error text
  anyway. That text does no harm: a rebuilt modal starts from `FreshForm`, with no
  error.
- `findIndexes` reads the `SHOW CREATE TABLE` text from the database, and that
  query is not part of this model: the text is the parameter `sql`. The regular
  expression is modelled for this one pattern, not as general PCRE. The `m` flag
  has no effect on this pattern.
- `FindIndexes` returns a `map`, where the source returns a PHP array (line 191).
  The map loses two things. First, the array keeps its keys in the order of
  each name's first occurrence, even when a later match overwrites the value;
  callers that iterate the array see that order. Second, PHP turns a purely
  numeric index name into an integer key. Only the set of names and the value
  stored under each are modelled.
- `_createDumpConfigFile` writes the file (line 239), and the write is not modelled:
  the model states its path and contents. `Craft::warning` in the savepoint functions
  is modelled as the warning text returned, not as logging.
- `getDefaultBackupCommand` concatenates the argument strings itself.
  `MysqlSchema.DefaultBackupCommand` is their space-separated `Join`. Its
  head, its tail and its words are proved, but the whole literal is not
  written out as one string.
- A failed check passes -1 (line 80). That value is outside the warning window
  (lines 93-96), so both modals hide and the check repeats in 60 seconds. The
  login modal is not shown (`AuthProperties.ScenarioFailedCheck`).
- Two behaviours of the code as written are stated as lemmas, not corrected.
  `AuthProperties.StaleLoginTimerSurvivesRenewal`: `renewSession` does not clear
  the forced-login timer. `AuthProperties.StaleSecondFactorFlow`: `mfaFlow` is
  reset only under `Craft.requireMfa`.

## Findings

| source | as written | input that shows it | evidently intended | confidence | as-written member | corrected member |
|---|---|---|---|---|---|---|
| src/db/mysql/Schema.php:157-163 | `getDefaultRestoreCommand` builds its command around `mysqldump` | any temporary path without spaces: the command's first word is `mysqldump`, which writes a dump and does not read `< {file}` into the database | the `mysql` client, which executes the dump file against `{database}` | high; not executed | MysqlSchema.RestoreAsWrittenRunsDumpTool | MysqlSchema.RestoreRunsClient |
