# Clinic alert engine and demo login, in Dafny

This project models two pieces of a multi-tenant clinic management web application.

**The usage/trial alert engine** (`AlertService` in `src/services/alertService.js`):
- A periodic pass looks at every active clinic.
- It raises a critical alert when a clinic has used its report quota. It raises a warning at 80% of the quota.
- It raises a critical alert when a clinic's trial has ended, and a warning when it ends within seven started days.
- A trial that has ended also turns the clinic's subscription to "expired" and deactivates the clinic.
- Alerts are deduplicated by the key (clinic, category, type). A still-active alert with the same key, created within the last 24 hours, absorbs a re-detection: its `count` goes up and its data is refreshed. Otherwise a new record with the deterministic id `clinicId_category_type` is added. Only a new record produces a toast and an `alert_created` entry in the usage log.
- Alerts can be acknowledged or dismissed. Both are logged, and both silently ignore an unknown id.
- The dashboard reads the active list (newest first), a clinic's alerts and a summary of counts.

**The demo email/password login** (`authService.loginWithEmail` over the fixed `staticCredentials` table in `src/services/authService.js`):
- It checks that both fields are present.
- It trims and lower-cases the email and looks it up in a four-entry table.
- It compares the password exactly.
- It fails in one of four distinct ways.

Layout:
- `optional.dfy` (`Optional`): the `Option` type.
- `alert_model.dfy` (`AlertModel`):
  - the records: clinic, alert, alert input, usage event and toast;
  - the thresholds as constants;
  - the deterministic alert id;
  - the JavaScript array operations the engine relies on (`find`, `filter`, update of the first match).
- `alert_rules.dfy` (`AlertRules`): which alert, if any, a clinic's usage and trial dates call for. All arithmetic is exact integer arithmetic.
- `alert_store.dfy` (`AlertStore`): each state change of the engine as a function from the old tables (clinics, alerts, usage log, toast queue) to the new ones.
- `alert_queries.dfy` (`AlertQueries`): the read-only views and counts.
- `alert_invariants.dfy` (`AlertInvariants`): properties that span several calls:
  - the deduplication invariant and its preservation by every operation;
  - what a repeated detection does;
  - what a full pass may change, and that it records every alert that is due;
  - trial expiry.
- `alert_service.dfy` (`AlertService`): the class `AlertEngine`. It holds the tables and the running flag as fields. Its methods change them in place, and each method is proved to move the tables exactly as the matching `AlertStore` function does.
- `js_strings.dfy` (`JsStrings`): `String.prototype.trim` and `toLowerCase`.
- `auth_service.dfy` (`AuthService`): the credential table and the login decision.

The data store behind the engine (`DatabaseService`) is not part of this model. The model assumes that it behaves as follows:
- `get` returns a table as a sequence in insertion order.
- `add` appends the record and stamps `createdAt` and `updatedAt` with the current time.
- `findById` finds the first record with the id, and `update` merges fields into that same record. `update` does nothing when there is no such record.
- `findBy('alerts', 'clinicId', id)` returns the records of that clinic in insertion order, so it is modelled as a filter of the table (`src/services/alertService.js:203`).

Every operation that reads the clock takes the time `now`, in milliseconds, as a parameter. Dates are millisecond timestamps.

Behaviour worth knowing:
- `acknowledgeAlert` and `dismissAlert` on an unknown id change nothing and report nothing. They do not fail with "not found".
- Dismissing an alert that is already resolved logs a second `alert_dismissed` entry.
- `getClinicAlerts` takes `activeOnly` as true by default (`src/services/alertService.js:202`). With it, the clinic's active alerts come back in table order, unsorted.
- The deterministic id is reused for later occurrences. If an older record (say, a resolved one) carries the same id, `findById` and `update` reach that older record first. So a re-detection within 24 hours is merged into the older record with count 2, while the fresh alert keeps count 1 (`AlertInvariants.StaleRecordAbsorbsMerge`). Dismissing or acknowledging by that id also hits the older record, and the fresh alert stays active (`AlertInvariants.StaleRecordShadowsFreshAlert`).

## Model

| member | source | states |
|---|---|---|
| AlertRules.ReportsAllowed | src/services/alertService.js:62 | the quota `reportsAllowed || 10`: the stored quota when it is set and non-zero, 10 when it is unset or zero; so never zero |
| AlertRules.ReportsUsed | src/services/alertService.js:62 | the usage `reportsUsed || 0`: the stored count when set, 0 otherwise |
| AlertRules.RoundedPercent | src/services/alertService.js:84 | `Math.round(100·used/allowed)` is the integer nearest to 100·used/allowed, with halves rounded up, for a quota of either sign |
| AlertRules.WarningPercentRange | src/services/alertService.js:79-89 | a usage ratio in [0.8, 1.0) rounds to a percentage between 80 and 100 |
| AlertRules.UsageAlert | src/services/alertService.js:61-93 | a critical usage alert exactly when the ratio reaches 1.0 (used ≥ allowed for a positive quota), titled "Report Limit Reached", with the message naming the quota, the action `purchase_reports` and the defaulted counts; a warning exactly when the ratio reaches 0.8 but not 1.0, titled "Report Limit Warning", with `percentage` equal to the rounded percentage (between 80 and 100), the message naming it and the action `consider_purchase`; nothing otherwise |
| AlertRules.QuotaOfTenUsedUp | src/services/alertService.js:61-76 | ten reports used of a quota of ten raise the critical alert, with counts (10, 10) and the message "Clinic … has used all 10 allocated reports." |
| AlertRules.DaysLeft | src/services/alertService.js:100 | the ceiling of (end − now)/one day: the day count d with (d − 1)·day < end − now ≤ d·day |
| AlertRules.TrialAlert | src/services/alertService.js:96-137 | only a clinic on a trial with an end date gets an alert, always with the action `upgrade_subscription`; critical exactly when the end date is reached, titled "Trial Expired" with the message "Trial period for clinic … has expired." and the days overdue as `daysExpired`; a warning exactly when the end is at most seven started days away, titled "Trial Ending Soon", with `daysLeft` in 1..7 and "day" singular only for one day; nothing otherwise |
| AlertRules.TrialEndedYesterday | src/services/alertService.js:100-114 | a trial that ended one day ago raises a critical alert with `daysExpired` = 1 |
| AlertRules.TrialEndsInThreeDays | src/services/alertService.js:122-134 | a trial ending in three days raises a warning with `daysLeft` = 3 and the plural message |
| AlertRules.ExpiredClinic | src/services/alertService.js:117-120 | the expired clinic is inactive with subscription status "expired", and every other field is the old clinic's |
| AlertModel.AlertKeyInjective | src/services/alertService.js:141 | distinct (clinic, category, type) keys give distinct ids `clinicId_category_type` |
| AlertModel.AlertKeyStartsWithClinic | src/services/alertService.js:141 | an alert id is its clinic's id followed by an underscore and more |
| AlertModel.CountOrOne | src/services/alertService.js:150 | the count `alert.count || 1`: the stored count when set and non-zero, 1 when unset or zero; so never zero |
| AlertStore.RecentAlertIndex | src/services/alertService.js:188-199 | the position of the first alert of the clinic, category and type that is active and created strictly after now − 24 h; none exactly when no alert matches |
| AlertStore.RecentAlert | src/services/alertService.js:188-199 | the alert found is the first stored alert that matches the lookup, as `find` returns it; none exactly when no stored alert matches |
| AlertStore.CreateAlert | src/services/alertService.js:140-185 | on a match: the pre-update record is returned, no record is added, and the usage log and toasts are unchanged; otherwise one record is appended (deterministic id, active, count 1, unacknowledged, created now), with one `alert_created` entry and one toast (8000 ms for critical, 6000 ms for warning); clinics are never touched |
| AlertStore.MergeUpdatesFoundAlert | src/services/alertService.js:145-152 | when the first record with the found alert's id is that alert, the merge bumps its count to old count (or 1) + 1, refreshes its data and `updatedAt`, keeps id, clinic, status, acknowledgement and creation time, and changes no other record |
| AlertStore.AcknowledgeAlert | src/services/alertService.js:221-241 | for a stored id: flags that record acknowledged at `now`, changes nothing else, and appends one `alert_acknowledged` entry; for an unknown id: all tables unchanged |
| AlertStore.DismissAlert | src/services/alertService.js:244-264 | for a stored id: resolves that record at `now` (logged again even if already resolved) and changes nothing else; for an unknown id: all tables unchanged |
| AlertStore.ExpireClinic | src/services/alertService.js:117-120 | the first clinic with the id becomes expired and inactive, and every other record is unchanged; an unknown id changes nothing |
| AlertStore.CheckUsage | src/services/alertService.js:61-93 | the usage check never touches the clinics table; it changes nothing when no usage alert is due; when one is due, the tables are exactly those `createAlert` leaves for it; at most one alert is added |
| AlertStore.CheckTrial | src/services/alertService.js:96-137 | the trial check changes nothing when no trial alert is due; when one is due, alerts, usage log and toasts are exactly those `createAlert` leaves for it; a warning leaves the clinics table alone; a critical alert also expires the clinic's record; at most one alert is added |
| AlertStore.CheckClinic | src/services/alertService.js:49-54 | an inactive clinic is skipped and changes nothing; an active one adds at most two alerts; the clinics table keeps its size |
| AlertStore.Pass | src/services/alertService.js:45-58 | a pass over a snapshot keeps the size of the clinics table and adds at most two alerts per clinic of the snapshot |
| AlertStore.CheckAllClinics | src/services/alertService.js:45-58 | a pass over the whole clinics table keeps its size and adds at most two alerts per clinic |
| AlertInvariants.AtMostOneRecentMatch | src/services/alertService.js:188-199 | under the deduplication invariant, at most one alert answers the recency lookup |
| AlertInvariants.CreateAlertKeepsInvariant | src/services/alertService.js:140-185 | `createAlert` keeps the invariant: ids are keyed, two active alerts with the same key were created at least 24 h apart, none was created after now |
| AlertInvariants.MergeKeepsInvariant | src/services/alertService.js:145-152 | the merge branch keeps the invariant |
| AlertInvariants.AppendKeepsInvariant | src/services/alertService.js:155-163 | the create branch keeps the invariant |
| AlertInvariants.AcknowledgeKeepsInvariant | src/services/alertService.js:221-241 | acknowledging keeps the invariant |
| AlertInvariants.DismissKeepsInvariant | src/services/alertService.js:244-264 | dismissing keeps the invariant |
| AlertInvariants.RelabelOneKeepsInvariant | src/services/alertService.js:221-264 | rewriting one record without changing its id, key or creation time, and without reactivating it, keeps the invariant |
| AlertInvariants.CheckClinicKeepsInvariant | src/services/alertService.js:49-54 | checking one clinic keeps the invariant |
| AlertInvariants.PassKeepsInvariant | src/services/alertService.js:45-58 | a full pass keeps the invariant |
| AlertInvariants.SecondDetectionFindsFresh | src/services/alertService.js:188-199 | after a first detection appends a record with count 1 and leaves the older records in place, a second detection within 24 h finds exactly that record by the recency lookup |
| AlertInvariants.FreshAlertFoundById | src/services/alertService.js:145-147 | when no older record carries the deterministic id, the freshly created record is the first with that id, so `findById` returns it |
| AlertInvariants.RecheckWithinWindowMerges | src/services/alertService.js:140-199 | two detections of the same condition within 24 h leave one new record with count 2, created at the first time and updated at the second, plus one toast and one `alert_created` entry |
| AlertInvariants.StaleRecordAbsorbsMerge | src/services/alertService.js:141-152 | with an older record holding the same id, the second detection's update lands on the first record with that id (at or before the older one): it becomes that record merged with the new data, count 2 and `updatedAt` the second time; the fresh alert is left as created, with count 1 |
| AlertInvariants.StaleRecordShadowsFreshAlert | src/services/alertService.js:221-264 | with an older record holding the same id, dismissing or acknowledging by that id leaves the fresh alert as it was: active |
| AlertInvariants.CreateFrame | src/services/alertService.js:140-185 | `createAlert` only adds alerts and log entries for its clinic, keeps the clinic of every alert, and leaves clinics alone |
| AlertInvariants.CheckClinicFrame | src/services/alertService.js:49-54 | checking a clinic adds alerts and log entries only for that clinic, and only when it is active; a clinic record changes only by expiring |
| AlertInvariants.PassFrame | src/services/alertService.js:45-58 | a pass adds alerts and log entries only for clinics active in its snapshot, never rewrites the log, and changes a clinic record only by expiring it |
| AlertInvariants.InactiveClinicRaisesNothing | src/services/alertService.js:49-54 | an inactive clinic (e.g. expired by an earlier pass) that is the only clinic in the table with its id gets no alert and no log entry from a pass, usage check included |
| AlertInvariants.CheckClinicExpiresEndedTrial | src/services/alertService.js:102-120 | checking an active clinic whose trial has ended expires its record |
| AlertInvariants.CheckClinicKeepsExpired | src/services/alertService.js:49-54 | a later check never reactivates an expired clinic record |
| AlertInvariants.CheckAfterPassExpires | src/services/alertService.js:45-58 | checking a clinic whose trial has ended, after any earlier part of a pass, expires its record, still found at the same position |
| AlertInvariants.PassExpiresEndedTrial | src/services/alertService.js:45-58 | a pass that meets an active clinic whose trial has ended leaves that clinic expired and inactive |
| AlertInvariants.PersistsKeepsRecent | src/services/alertService.js:188-199 | an alert that answers the recency lookup keeps answering it in any later table where every record keeps its place, key, status and creation time |
| AlertInvariants.CreateAlertPersists | src/services/alertService.js:140-185 | with keyed ids, `createAlert` keeps every record in place with its key, status and creation time: the merge rewrites only a record of the found alert's key |
| AlertInvariants.CreateAlertRecords | src/services/alertService.js:140-185 | after `createAlert`, an alert of its clinic, category and type answers the recency lookup: the record merged into or the one added |
| AlertInvariants.CheckClinicPersists | src/services/alertService.js:49-54 | under the invariant, checking a clinic keeps every record in place with its key, status and creation time |
| AlertInvariants.CheckClinicRecords | src/services/alertService.js:49-54 | under the invariant, checking an active clinic leaves its due usage alert and its due trial alert each answered by the recency lookup |
| AlertInvariants.PassRecordsDueAlerts | src/services/alertService.js:45-58 | under the invariant, at the end of a pass every clinic that was active in the snapshot has its due usage alert and its due trial alert recorded, each answered by the recency lookup |
| AlertInvariants.CheckAllClinicsRecordsDueAlerts | src/services/alertService.js:45-58 | under the invariant, `checkAllClinics` leaves every active clinic with the usage and trial alerts it calls for |
| AlertQueries.ActiveAlerts | src/services/alertService.js:216 | exactly the alerts with status active |
| AlertQueries.InsertKeepsBound | src/services/alertService.js:217 | inserting an alert no newer than a time among alerts no newer than it keeps them all so |
| AlertQueries.InsertKeepsNewestFirst | src/services/alertService.js:217 | inserting into a list sorted by creation time, newest first, keeps it sorted |
| AlertQueries.SortNewestFirst | src/services/alertService.js:217 | the sort by `createdAt` descending returns a permutation of its input, sorted newest first |
| AlertQueries.AllActiveAlerts | src/services/alertService.js:213-218 | `getAllActiveAlerts` returns exactly the active alerts, each as often as stored, newest first |
| AlertQueries.ClinicAlerts | src/services/alertService.js:202-210 | exactly the clinic's alerts, only the active ones with `activeOnly`; with `activeOnly` it is the table filtered on clinic and active status, in table order; without it, a permutation of the clinic's alerts sorted newest first |
| AlertQueries.TypeCountsCoverActive | src/services/alertService.js:273-275 | active critical plus active warning alerts make up all active alerts |
| AlertQueries.CategoryCountsCoverActive | src/services/alertService.js:280-282 | the per-category counts of active alerts add up to the active count |
| AlertQueries.TallyStep | src/services/alertService.js:280-282 | one step `byCategory[cat] = (byCategory[cat] || 0) + 1` turns the tally of a prefix into the tally of the prefix one longer |
| AlertQueries.GroupByCategory | src/services/alertService.js:279-282 | the loop leaves an entry exactly for each category present, holding the number of alerts of that category |
| AlertQueries.DismissLeavesActiveList | src/services/alertService.js:244-250 | a dismissed alert is not in the active list afterwards, which shrinks by one if it was active |
| AlertQueries.AcknowledgeKeepsActiveList | src/services/alertService.js:221-227 | acknowledging keeps the size of the active list, and an active alert stays in it, flagged |
| AlertService.AlertEngine.constructor | src/services/alertService.js:5-14 | a new engine is not running and holds the given tables |
| AlertService.AlertEngine.Start | src/services/alertService.js:17-32 | when already running nothing changes; otherwise the engine is running with the timer armed, and one full pass has been applied |
| AlertService.AlertEngine.Stop | src/services/alertService.js:35-42 | the engine stops with the timer disarmed, and changes nothing else |
| AlertService.AlertEngine.Tick | src/services/alertService.js:25-27 | a timer firing runs a full pass while armed |
| AlertService.AlertEngine.CheckAllClinics | src/services/alertService.js:45-58 | the loop over the clinic snapshot leaves the tables as a full pass does, and keeps the deduplication invariant |
| AlertService.AlertEngine.CheckClinicUsage | src/services/alertService.js:61-93 | the tables move as the usage check says |
| AlertService.AlertEngine.CheckTrialStatus | src/services/alertService.js:96-137 | the tables move as the trial check says, including the expiry of the clinic |
| AlertService.AlertEngine.CreateAlert | src/services/alertService.js:140-185 | tables and returned alert are those of `AlertStore.CreateAlert`, and the deduplication invariant is kept |
| AlertService.AlertEngine.AcknowledgeAlert | src/services/alertService.js:221-241 | the tables move as `AlertStore.AcknowledgeAlert` says |
| AlertService.AlertEngine.DismissAlert | src/services/alertService.js:244-264 | the tables move as `AlertStore.DismissAlert` says |
| AlertService.AlertEngine.GetAllActiveAlerts | src/services/alertService.js:213-218 | the result holds exactly the active alerts, as often as stored, newest first |
| AlertService.AlertEngine.GetClinicAlerts | src/services/alertService.js:202-210 | `activeOnly` defaults to true; the result holds exactly the clinic's (active) alerts; with `activeOnly` it is the table filtered on clinic and active status in table order, without it a permutation of the clinic's alerts sorted newest first |
| AlertService.AlertEngine.GetAlertStats | src/services/alertService.js:267-285 | total counts every alert, including resolved ones; active counts the active ones; critical and warning count active alerts by type and add up to active; `byCategory` has an entry exactly for each category with an active alert, holding its count |
| JsStrings.TrimStart | src/services/authService.js:103 | strips a prefix made only of white space, and what is left does not start with white space |
| JsStrings.TrimEnd | src/services/authService.js:103 | strips a suffix made only of white space, and what is left does not end with white space |
| JsStrings.Trim | src/services/authService.js:103 | the trimmed string neither starts nor ends with white space |
| JsStrings.TrimBothKeepsMiddle | src/services/authService.js:103 | trimming both ends keeps a middle piece of the string: it follows the leading run of stripped characters, and only stripped characters follow it |
| JsStrings.TrimKeepsMiddle | src/services/authService.js:103 | `trim` returns the part of the string after its leading white space, followed only by white space |
| JsStrings.TrimIgnoresPadding | src/services/authService.js:103 | `trim` ignores white space added around its argument |
| JsStrings.TrimOfTrimmed | src/services/authService.js:103 | a string without surrounding white space is its own trim |
| JsStrings.ToLower | src/services/authService.js:103 | the result equals the argument up to letter case and has no capital letter |
| JsStrings.ToLowerUnique | src/services/authService.js:103 | the lower-case form is the only string that equals the argument up to case and has no capital letter |
| JsStrings.TrimKeepsSameUpToCase | src/services/authService.js:103 | trimming strings that differ only in case gives strings that differ only in case |
| JsStrings.SameStripPositions | src/services/authService.js:103 | strings with characters to strip at the same positions lose the same number of them at each end |
| JsStrings.ToLowerIgnoresCase | src/services/authService.js:103 | strings that differ only in case lower-case to the same string |
| AuthService.StaticCredentialsShape | src/services/authService.js:38-88 | each entry is filed under its user's email, no password is empty, and only the clinic admin is tied to a clinic |
| AuthService.StaticCredentials | src/services/authService.js:38-88 | the table has exactly the four demo emails as keys |
| AuthService.Normalize | src/services/authService.js:103 | the normalised email equals the trimmed email up to case, has no capital letter, and neither starts nor ends with white space |
| AuthService.NormalizeIgnoresCase | src/services/authService.js:103 | emails that differ only in letter case normalise to the same key |
| AuthService.NormalizeIgnoresPadding | src/services/authService.js:103 | surrounding white space does not change the normalised key |
| AuthService.LoginWithEmail | src/services/authService.js:91-147 | a missing or empty email gives "Email is required" before anything else; then a missing or empty password gives "Password is required"; an unknown normalised email gives "Invalid email address"; a wrong password gives "Invalid password"; the right one gives success with the entry's user |
| AuthService.LoginSucceedsIff | src/services/authService.js:108-125 | login succeeds exactly for a stored normalised email with its exact password, and returns the user filed under that email |
| AuthService.LoginIgnoresEmailForm | src/services/authService.js:103-108 | a non-empty email gives the same outcome as any email that differs from it only in letter case, with white space added around it |
| AuthService.NormalizeOfKey | src/services/authService.js:103 | an email without capitals or surrounding white space is its own key |
| AuthService.DemoLoginsSucceed | src/services/authService.js:38-125 | each of the four demo accounts logs in with its stored email and password and gets its own user record |
| AuthService.DemoKeysLogIn | src/services/authService.js:38-125 | any table filed under the four demo emails with non-empty passwords lets each of them log in with its stored password |
| AuthService.OwnKeysLogIn | src/services/authService.js:103-125 | in a table whose keys are their own normal forms, every key logs in with its stored password and gets its entry's user |
| AuthService.PasswordComparedExactly | src/services/authService.js:114-137 | any other non-empty password than the accepted one, whether differing by case, padding or otherwise, gives "Invalid password" |
| AuthService.PropertyLookup | src/services/authService.js:108 | the bracket lookup yields the own entry for a stored key, an inherited member for a name of `Object.prototype`, and nothing otherwise |
| AuthService.LoginAsWritten | src/services/authService.js:108-141 | with the lookup as written, an email that normalises to an inherited property name gives "Invalid password" |
| AuthService.AsWrittenAgreesOffPrototype | src/services/authService.js:108-141 | the login as written and the corrected login agree on every email that does not normalise to an inherited property name |
| AuthService.PrototypeKeyMisreported | src/services/authService.js:108-141 | an email that is not a key but normalises to an inherited property name gives "Invalid password" as written and "Invalid email address" when corrected |
| AuthService.PrototypeEmailReportsWrongPassword | src/services/authService.js:108-141 | for "constructor" and " __PROTO__ " the login as written says "Invalid password", the corrected login "Invalid email address" |

## Left out

- Timers: `setInterval`/`clearInterval` and the five-minute period are modelled only as the `timerArmed` flag and an explicit `Tick`, because time passing is not part of the logic.
- `console` output is left out: it has no effect on state.
- Toasts are recorded as a queue of (message, duration) entries. Their display by the UI library is not modelled.
- `sendEmailNotification` is left out: it is an asynchronous mock that nothing calls.
- `initializeAlertsTable` is left out: it only bootstraps browser storage.
- The `try`/`catch` around a pass is left out. The modelled store operations never throw.
- `DatabaseService` is not part of this model. Its behaviour is the set of assumptions listed above. What `add` does with a record whose id is already taken is not knowable from these files, so the model appends it like any other record.
- Invalid or unparsable dates are not modelled: timestamps are integers.
- Clinic quotas and counters may be any integers. Values that are not numbers are not modelled.
- UsageAlert: the usage ratio and `Math.round` are exact rational arithmetic, not floating point. A ratio within rounding error of 0.8 or 1.0, or a percentage within rounding error of a .5, may come out differently in the browser.
- AlertService.AlertEngine.CheckAllClinics: one clock value `now` serves a whole pass. The source reads the clock afresh in each check and each store call, so its timestamps within one pass may differ by milliseconds.
- AlertService.AlertEngine.GetClinicAlerts: `DatabaseService.findBy` is not part of this model; it is taken to return the clinic's records in insertion order, a filter of the table.
- AlertQueries.SortNewestFirst: the result is proved sorted and a permutation of the input. That ties keep their input order, as the browser's stable sort does, is not proved.
- AlertInvariants.RecheckWithinWindowMerges: it requires that no older record carries the same id. The other case is `AlertInvariants.StaleRecordAbsorbsMerge`.
- AuthService.LoginWithEmail: the generated `static_token_<time>` token is a parameter. The 300 ms delay and the two `localStorage` writes are left out. The thrown errors are modelled as results.
- AuthService.LoginWithEmail: email and password are strings or missing. Other JavaScript values, such as a number, whose `trim` would throw, are not modelled.
- JsStrings.ToLower: lower-cases ASCII letters only. The only characters outside ASCII whose lower-case form contains ASCII letters are U+212A (Kelvin sign, giving "k") and U+0130 (capital I with dot above, giving "i" plus a combining dot). No table key contains a "k", and the combining dot would keep a key from matching. So the login outcome is the same as with full Unicode case mapping.
- The `createdAt` of the demo users is the time the table was built. It is the parameter `loadedAt`.
- The rest of `authService.js` is not part of this model: the HTTP client and its interceptors, cookies, registration, password endpoints and the simulated OAuth flow. It is network and browser plumbing.
- The React components are not part of this model. They are rendering and form handling.

## Findings

| source | as written | input that shows it | evidently intended | confidence | as-written member | corrected member |
|---|---|---|---|---|---|---|
| src/services/authService.js:108 | `this.staticCredentials[normalizedEmail]` is a plain-object lookup, so it also finds members inherited from `Object.prototype`; these are truthy and have no `password`, so the login reports "Invalid password" | email "constructor" (or " __PROTO__ ") with any non-empty password | an email that is not one of the four table keys is reported as "Invalid email address" | not executed | AuthService.LoginAsWritten, AuthService.PrototypeKeyMisreported, AuthService.PrototypeEmailReportsWrongPassword | AuthService.LoginWithEmail, AuthService.LoginSucceedsIff |
