# AdminPortal core, modelled in Dafny

This project models the core of the AdminPortal support-audit and onboarding
application. It has four parts.

- **The conversation-policy auditor of the incident detail page.** It works on
  the last user message and the last bot message of a transcript:
  - it extracts the "N days" mention and the "$amount";
  - it matches every rule of a JSON schema;
  - it derives the outcome with the precedence stop > modify > interject;
  - it computes the confidence from fired severity over total severity, plus a
    high-value bonus;
  - it sorts the fired rules by severity, most severe first, keeping ties in
    schema order;
  - it builds the rationale and the suggested reply.

  The operator's three actions record auditor messages in the transcript. They
  are apply the suggestion, allow the original, and request a human.
- **The quick scan behind the incidents list and the incidents table.** It
  checks three fixed violation patterns against the joined, lower-cased user
  text and bot text. It also builds the one-incident projection of a user's
  history.
- **The onboarding page-layout configuration.** This covers:
  - the `admin_config` table, with its seed rows, its ordered read and its
    all-or-nothing replacement under the UNIQUE(page, component) constraint;
  - the controller's validation rules, with their exact error messages;
  - the admin page's move and save logic.
- **The onboarding wizard's step machine.** It restores the user's step,
  authenticates at step 1, collects the current page's components into a
  progress update, saves it and moves on, and it handles "back". This part
  also models the `updateProgress` builder of the SQL SET clause.

Modules, one per file:

- `Wrappers`: `Option`.
- `Text`: substring search, lower-casing, join, and number printing.
- `Extractors`: the two regular expressions of the auditor.
- `Policy`: the schema and decision values, and the default schema.
- `Auditor`: the `audit` function and its loop.
- `Review`: the `ReviewPage` class, the detail page's state.
- `QuickScan`: the quick-scan violation counter and the incidents projection.
- `Layout`: page layouts and the layout predicate.
- `ConfigStore`: the `ConfigTable` class.
- `AdminController`: the HTTP handlers `getConfig` and `updateConfig`.
- `AdminPage`: the `AdminView` class.
- `UserProgress`: the statement builder.
- `Onboarding`: the `Wizard` class.

Pure code is modelled as functions and lemmas. Code that changes state is
modelled as classes whose methods are proved against those functions:

- React component state becomes the classes `ReviewPage`, `AdminView` and
  `Wizard`.
- The database table becomes the class `ConfigTable`.

Some behaviours of the source that the proofs make explicit:

- **Stored display order.** `configOps.updateConfig` stores each row's position
  in the combined page-2-then-page-3 list as its `display_order`. It does not
  store the per-page index the controller computed. Reading the layout back
  still returns exactly the saved layout (`AdminController.StoreThenReadIsIdentity`).
- **High-value bonus.** The audit adds the bonus even when no rule fires. An
  `allow` decision can therefore carry confidence 0.1 (`Auditor.ConfidenceIsFiredShare`).
- **Apply suggestion.** Applying the suggestion drops every message after the
  last bot message (`Review.WithSuggestion`).
- **Moving a component.** A move takes the component from page 2 when it is
  there, and from page 3 otherwise. A name on neither page would be appended to
  the target page. So layout validity is preserved only for components of the
  layout (`AdminPage.MoveKeepsValidLayout`).
- **Signing in.** After a successful sign-in the effect on `user` runs again and sets the step from the record. A new user's record has `current_step` 1, so the wizard shows step 1 again instead of the step 2 the handler set (`Onboarding.Wizard.SignIn`, `Onboarding.NewUserResumesAtStepOne`). This is read off the code, not executed.
- **Resuming the wizard.** A stored `current_step` of 0 restarts at step 1,
  because the source uses `|| 1`.

## Model

| member | source | states |
|---|---|---|
| Extractors.DetectDaysSinceMentionIsLeftmostMatch | frontend/src/pages/IncidentDetailPage.jsx:66-71 | The days extractor returns nothing exactly when no position matches `(\d{1,3})\s*day`. Otherwise it returns the number captured by the leftmost match, which is at most 999. |
| Extractors.DaysAtIsMatch | frontend/src/pages/IncidentDetailPage.jsx:66-71 | A match starts at a position exactly when the local scan finds one there. The capture is the same for every match at that position. |
| Extractors.DayMatchIsGreedy | frontend/src/pages/IncidentDetailPage.jsx:66-71 | Any match takes the maximal digit run and the maximal run of spaces, as the greedy regex does. |
| Extractors.DetectOrderValueIsLeftmostMatch | frontend/src/pages/IncidentDetailPage.jsx:73-77 | The amount extractor returns nothing exactly when no `$` is followed by a digit. Otherwise it returns the value at the first such `$` (up to 6 integer digits and 2 decimals), which is below one million. |
| Auditor.LastIndexOf | frontend/src/pages/IncidentDetailPage.jsx:81-82 | If an index is found, it holds a message of that role and no later message has that role. Nothing is found exactly when no message has that role. |
| Auditor.FiringRules | frontend/src/pages/IncidentDetailPage.jsx:99-112 | A rule is in the result exactly when it is a schema rule whose match fires on the extracted features. |
| Auditor.MatchRules | frontend/src/pages/IncidentDetailPage.jsx:99-112 | The rule loop collects exactly the firing rules, in schema order. |
| Auditor.RuleWithoutMatchNeverFires | frontend/src/pages/IncidentDetailPage.jsx:100-101 | A rule without a `match` object never fires. |
| Auditor.SeverityCeiling | frontend/src/pages/IncidentDetailPage.jsx:114 | The divisor is never zero, because of the `\|\| 1` fallback for a zero total. |
| Auditor.Confidence | frontend/src/pages/IncidentDetailPage.jsx:116-117 | The confidence always lies in [0, 1]. |
| Auditor.ConfidenceIsFiredShare | frontend/src/pages/IncidentDetailPage.jsx:114-117 | Confidence is min(1, fired share of severity + bonus). It is never below the bonus. It equals the bonus when nothing fires, and 1 when every rule fires with a positive total. |
| Auditor.FiredSeverityAtMostTotal | frontend/src/pages/IncidentDetailPage.jsx:114-115 | With non-negative severities, the fired severity sum lies between 0 and the total. |
| Auditor.OutcomePrecedence | frontend/src/pages/IncidentDetailPage.jsx:119-130 | It is allow exactly when nothing fires, stop exactly when a stop rule fires, interject-modify exactly when a modify rule and no stop rule fires, and interject-ask-user otherwise. |
| Auditor.HasActionMeansMember | frontend/src/pages/IncidentDetailPage.jsx:120-126 | The action test holds exactly when some triggered rule carries that action. |
| Auditor.SortBySeverityIsStableSort | frontend/src/pages/IncidentDetailPage.jsx:135 | Sorting by descending severity gives a sorted permutation that keeps rules of equal severity in their original order. |
| Auditor.ReportedIsStableSort | frontend/src/pages/IncidentDetailPage.jsx:99-135 | The reported rules are exactly the firing rules, each as often as it fires, severity-sorted, with ties in schema order. |
| Auditor.RationaleLines | frontend/src/pages/IncidentDetailPage.jsx:147-149 | There is one rationale line per triggered rule, in the same order. |
| Auditor.GuidanceLines | frontend/src/pages/IncidentDetailPage.jsx:132-145 | There is one guidance line per triggered rule, in the same order. |
| Auditor.AuditDecision | frontend/src/pages/IncidentDetailPage.jsx:80-152 | With enough context, the decision's outcome, triggered rules and confidence are the ones described in the rows above, all at once. |
| Auditor.DecisionShape | frontend/src/pages/IncidentDetailPage.jsx:132-149 | There is a suggested reply exactly when the outcome is not allow. The reply is the base text, the guidance header and the joined guidance lines. The rationale lists the triggered rules. |
| Auditor.DecisionFallbacks | frontend/src/pages/IncidentDetailPage.jsx:83-90 | An unparsable schema yields "Invalid schema". A transcript without a user and a bot message yields the insufficient-context rationale. Both are allow decisions with confidence 0, no rules and no reply. |
| Auditor.Audit | frontend/src/pages/IncidentDetailPage.jsx:80-152 | The imperative audit returns the decision that the audit function defines. |
| Auditor.Decide | frontend/src/pages/IncidentDetailPage.jsx:253-256 | The page's decision is the invalid-schema decision or the audit of the current transcript. |
| Review.SuggestionNeedsBot | frontend/src/pages/IncidentDetailPage.jsx:259-265 | A suggested reply exists only when the transcript has a bot message, so the last-bot index is always defined. |
| Review.WithSuggestion | frontend/src/pages/IncidentDetailPage.jsx:259-281 | The new transcript is the prefix up to the last bot message, then the modification notice carrying the decision, then the suggested reply as the last bot message, which carries the decision and the replaced text. |
| Review.WithNotice | frontend/src/pages/IncidentDetailPage.jsx:283-307 | The new transcript is the old one with exactly one auditor message appended, with the given id and text, carrying the decision in its metadata. |
| Review.NoticeKeepsDecision | frontend/src/pages/IncidentDetailPage.jsx:283-307 | An appended auditor notice leaves the audit decision unchanged. |
| Review.ActionsResolve | frontend/src/pages/IncidentDetailPage.jsx:378 | After any operator action, no violation is reported as unresolved. |
| Review.AppliedReplyIsAudited | frontend/src/pages/IncidentDetailPage.jsx:259-281 | After the suggestion is applied, the audit reads the suggested reply as the bot text. |
| Review.ReviewPage.constructor | frontend/src/pages/IncidentDetailPage.jsx:236-245 | The page starts with empty transcripts and the default schema. |
| Review.ReviewPage.LoadUserData | frontend/src/pages/IncidentDetailPage.jsx:221-234 | A loaded record sets both transcripts to its history, or to empty when it has none. A failed request only sets "Failed to load user data". |
| Review.ReviewPage.EditSchema | frontend/src/pages/IncidentDetailPage.jsx:236-245 | Editing the schema replaces only the parsed schema. |
| Review.ReviewPage.ApplySuggestion | frontend/src/pages/IncidentDetailPage.jsx:259-281 | Without a suggestion nothing changes. Otherwise the transcript becomes `WithSuggestion` and the violation is resolved. |
| Review.ReviewPage.AllowOriginal | frontend/src/pages/IncidentDetailPage.jsx:283-294 | It appends the override notice, keeps the decision and resolves the violation. |
| Review.ReviewPage.RequestHuman | frontend/src/pages/IncidentDetailPage.jsx:296-307 | It appends the human-request notice, keeps the decision and resolves the violation. |
| Review.ReviewPage.ResetDemo | frontend/src/pages/IncidentDetailPage.jsx:309 | The transcript returns to the one loaded. |
| QuickScan.TextsOfOne | frontend/src/pages/AuditIncidentsPage.jsx:43-44 | A single message contributes its text exactly when it has the filtered role. |
| QuickScan.TextsOfConcat | frontend/src/pages/AuditIncidentsPage.jsx:43-44 | The texts of two transcripts joined are the texts of each, in order. With `TextsOfOne`, the texts are those of the role's messages in transcript order. |
| QuickScan.PatternScore | frontend/src/pages/AuditIncidentsPage.jsx:46-58 | One pattern adds at most 2, and at most 1 when it has only one keyword list. |
| QuickScan.Score | frontend/src/pages/AuditIncidentsPage.jsx:46-58 | The count is at most twice the number of patterns. |
| QuickScan.ScorePatterns | frontend/src/pages/AuditIncidentsPage.jsx:46-58 | The pattern loop computes the score function. |
| QuickScan.CountViolations | frontend/src/pages/AuditIncidentsPage.jsx:33-61 | The imperative counter returns the violation count function, including 0 for a missing or empty list. |
| QuickScan.RefundPatternScore | frontend/src/pages/AuditIncidentsPage.jsx:47-54 | The refund pattern counts 1 exactly when the user text has "refund" or "return" and a day mention above 30. |
| QuickScan.PromisePatternScore | frontend/src/pages/AuditIncidentsPage.jsx:55-56 | The promise pattern counts 1 exactly when the bot text has one of its phrases. |
| QuickScan.SensitivePatternScore | frontend/src/pages/AuditIncidentsPage.jsx:55-56 | The sensitive-data pattern counts 1 exactly when the bot text has one of its phrases. |
| QuickScan.ViolationCountExplained | frontend/src/pages/AuditIncidentsPage.jsx:33-61 | The count of a non-empty list is the number of the three patterns that hold on the joined user text and bot text. |
| QuickScan.ViolationCountBound | frontend/src/pages/AuditIncidentsPage.jsx:33-61 | The count is at most 3, and 0 for a missing or empty list. |
| QuickScan.AuditorMessagesIgnored | frontend/src/pages/AuditIncidentsPage.jsx:43-44 | An auditor message inserted anywhere does not change the count. |
| QuickScan.FoundInJoinedText | frontend/src/pages/AuditIncidentsPage.jsx:43-44 | A keyword in one message of a role is found in that role's joined, lower-cased text. |
| QuickScan.PromiseFlags | frontend/src/pages/AuditIncidentsPage.jsx:55-56 | A bot message containing "processed a full refund" makes the list a violation. |
| QuickScan.PasswordFlags | frontend/src/pages/AuditIncidentsPage.jsx:55-56 | A bot message containing "password" makes the list a violation. |
| QuickScan.Incidents | frontend/src/components/IncidentsTable.jsx:10-20 | There is no incident exactly when the history is missing or empty. Otherwise there is one incident holding the whole history and its count, flagged exactly when the count is positive. |
| QuickScan.SeedRefundPromiseIsFlagged | backend/src/scripts/seedConversations.js:15-23 | The seeded refund-promise transcript is flagged. |
| QuickScan.SeedPasswordRequestIsFlagged | backend/src/scripts/seedConversations.js:24-32 | The seeded password-request transcript is flagged. |
| QuickScan.SeedLateReturnIsFlagged | backend/src/scripts/seedConversations.js:42-49 | The seeded late-return transcript is flagged. |
| Layout.ElemSetSizeIsLength | backend/src/controllers/adminController.js:53-58 | The set of a list's entries has the list's length exactly when the list repeats no entry. |
| ConfigStore.SortRowsIsSortedPermutation | backend/src/models/database.js:137-140 | The ordered read returns every stored row, each as often as stored, ordered by page and then display order. |
| ConfigStore.SortRowsOfSorted | backend/src/models/database.js:137-140 | Rows already in key order are read back in stored order. |
| ConfigStore.Stored | backend/src/models/database.js:146-153 | Each written row keeps its page and component, and its display order is its position in the whole list. |
| ConfigStore.ConfigTable.Open | backend/src/models/database.js:44-57 | An empty table is seeded with about_me and birthdate on page 2 and address on page 3. A non-empty table is kept. |
| ConfigStore.ConfigTable.Ordered | backend/src/models/database.js:137-140 | The read is sorted by key and is a permutation of the table's rows. |
| ConfigStore.ConfigTable.Replace | backend/src/models/database.js:142-154 | The transaction succeeds exactly when no two entries share a page and a component (the UNIQUE constraint at line 39). On success the table holds the new rows. On failure it rolls back to the old rows. |
| AdminController.InvalidComponents | backend/src/controllers/adminController.js:44-50 | The reported names are exactly the submitted names outside the three valid types. |
| AdminController.InvalidComponentsOne | backend/src/controllers/adminController.js:44-49 | A single entry is reported exactly when it is not a component type. |
| AdminController.InvalidComponentsConcat | backend/src/controllers/adminController.js:44-49 | The entries reported for two lists joined are those of each list, in order. With `InvalidComponentsOne`, the invalid entries are reported in input order, repeats included. |
| AdminController.AcceptedIffValidLayout | backend/src/controllers/adminController.js:35-65 | A submission is accepted exactly when both pages are non-empty and together hold each of about_me, address and birthdate exactly once. |
| AdminController.RefusalReasons | backend/src/controllers/adminController.js:35-65 | Each of the four errors is returned exactly in its own case: an empty page, an invalid name (listing exactly the invalid names), a repeated component, or a missing component. |
| AdminController.PageRows | backend/src/controllers/adminController.js:68-74 | Each component of a page becomes a row with that page and its index on the page. |
| AdminController.BuildRows | backend/src/controllers/adminController.js:68-74 | The two loops build page 2's rows followed by page 3's. |
| AdminController.ValidLayoutRowsAreUnique | backend/src/controllers/adminController.js:61-76 | The rows of an accepted layout never violate the UNIQUE constraint. |
| AdminController.UpdateConfig | backend/src/controllers/adminController.js:30-83 | A refused submission gets 400 with the exact error message and leaves the table unchanged. An accepted one gets "Configuration updated successfully" and the table holds the layout's rows. |
| AdminController.GetConfig | backend/src/controllers/adminController.js:4-27 | The handler groups the ordered rows into page 2's and page 3's component lists. |
| AdminController.StoreThenReadIsIdentity | backend/src/controllers/adminController.js:9-20 | Any layout, once written and read back, is the same layout. |
| AdminController.AcceptedLayoutIsReadBack | backend/src/controllers/adminController.js:76-78 | After a valid layout is stored, reading the configuration returns the submitted layout, which is valid. |
| AdminController.DefaultRowsReadAsDefaultLayout | backend/src/models/database.js:44-57 | The seeded table reads as page 2 = [about_me, birthdate] and page 3 = [address]. |
| AdminController.DefaultLayoutIsValid | backend/src/models/database.js:44-57 | The seeded layout passes the controller's validation. |
| AdminPage.UnmovedIffSamePage | frontend/src/pages/Admin.jsx:42-44 | A move does nothing exactly when the component is already taken to be on the target page. |
| AdminPage.RefusedIffSourceEmpties | frontend/src/pages/Admin.jsx:47-55 | A move is refused exactly when the source page holds nothing but the component. |
| AdminPage.MovedPlacement | frontend/src/pages/Admin.jsx:47-49 | A completed move appends the component to the target page and removes it from the source page, keeping the other entries in order. |
| AdminPage.MoveKeepsComponents | frontend/src/pages/Admin.jsx:47-49 | A move of a layout component neither adds nor loses a component. |
| AdminPage.MoveKeepsValidLayout | frontend/src/pages/Admin.jsx:38-58 | Moving a component of a valid layout gives a valid layout. |
| AdminPage.SaveError | frontend/src/pages/Admin.jsx:78 | A failed save always shows a non-empty message, and it is the server's error whenever the server sent one. |
| AdminPage.AdminView.constructor | frontend/src/pages/Admin.jsx:7 | The page starts with two empty pages and no messages. |
| AdminPage.AdminView.LoadConfig | frontend/src/pages/Admin.jsx:25-36 | A delivered configuration is the grouped table. A failed request sets "Failed to load configuration". |
| AdminPage.AdminView.MoveComponent | frontend/src/pages/Admin.jsx:38-58 | It clears both messages, then applies the move or reports the empty-page error. A valid layout stays valid. |
| AdminPage.AdminView.Save | frontend/src/pages/Admin.jsx:60-83 | This covers the empty-page refusal with no request, a failed request, the server's validation error and success. After a reported success the stored table reads back as the page's layout, which is valid. |
| UserProgress.PushIfSupplied | backend/src/models/database.js:85-116 | One field test adds the assignment and value of that column exactly when the field is supplied. |
| UserProgress.UpdateProgress | backend/src/models/database.js:81-123 | The statement assigns the supplied columns in fixed order, then `updated_at`. It binds their values and then the user id. |
| UserProgress.ClauseIsSuppliedColumn | backend/src/models/database.js:85-116 | The i-th assignment is that of the i-th supplied column, and the i-th value is that field's value. |
| UserProgress.SuppliedInColumnOrder | backend/src/models/database.js:85-116 | The supplied columns appear in column order, each once. A column appears exactly when its field is present. |
| UserProgress.CompletedStoredAsBit | backend/src/models/database.js:113-116 | A supplied `completed` is bound as 1 when true and 0 when false. |
| UserProgress.OnlyListedColumnsWritten | backend/src/models/database.js:85-118 | No column other than the eight fields and `updated_at` is assigned. |
| UserProgress.PlaceholdersMatchValues | backend/src/models/database.js:118-121 | The statement has exactly as many `?` placeholders as bound values. |
| Onboarding.CollectedFieldsAreThePageComponents | frontend/src/pages/Onboarding.jsx:111-139 | A page's step data holds about_me, the four address fields or birthdate exactly when that component is on the page, with the form's values. It sets neither step nor completion. |
| Onboarding.SavedStepAndFlag | frontend/src/pages/Onboarding.jsx:87-98 | A saved step binds the next step to `current_step`, and binds `completed` as 1 exactly when the next step is past 3. |
| Onboarding.BackStep | frontend/src/pages/Onboarding.jsx:156-160 | "Back" decrements a step above 1 and never goes below 1. |
| Onboarding.Wizard.constructor | frontend/src/pages/Onboarding.jsx:13-28 | The wizard starts at step 1 with an empty form, no configuration and nothing sent. |
| Onboarding.Wizard.LoadConfig | frontend/src/pages/Onboarding.jsx:32-40 | A fetched configuration is kept. A failed fetch sets "Failed to load configuration". |
| Onboarding.Wizard.Resume | frontend/src/pages/Onboarding.jsx:45-64 | A signed-in user's record fills the form. A completed user goes to success. Otherwise the wizard resumes at the stored step, or at 1 when none is stored. |
| Onboarding.Wizard.InputChange | frontend/src/pages/Onboarding.jsx:67-69 | Only the edited form field changes. |
| Onboarding.Wizard.Step1Submit | frontend/src/pages/Onboarding.jsx:71-85 | The handler alone: success records the user and sets step 2. Failure shows the server's error, or "Authentication failed". What the page then shows is `SignIn`. |
| Onboarding.NewUserResumesAtStepOne | backend/src/models/database.js:25-26 | A newly created user, with the column defaults, is not completed and resumes at step 1. |
| Onboarding.Wizard.SignIn | frontend/src/pages/Onboarding.jsx:31-85 | The handler followed by the re-run of the effect on `user`. After a successful sign-in the form is refilled from the record, with the password cleared. An uncompleted user is at the record's resume step, not step 2. A completed user goes to success. A refusal changes only the error. |
| Onboarding.Wizard.Advance | frontend/src/pages/Onboarding.jsx:31-154 | `handleNext` followed by the effect re-run when the save returned a record. It sends the same request as `Next`. The step is the returned record's resume step. When the record holds the step and flag just saved, the result is the one `Next` gives. |
| Onboarding.Wizard.CollectStepData | frontend/src/pages/Onboarding.jsx:111-139 | The loop over the page's components yields the collected step data. |
| Onboarding.Wizard.Next | frontend/src/pages/Onboarding.jsx:105-154 | With a user, the collected data plus the next step and completion flag is sent. A failed save keeps the step and shows "Failed to save progress". Otherwise the wizard moves to the next step, or to success after step 3. The step stays within 1..3. |
| Onboarding.Wizard.Back | frontend/src/pages/Onboarding.jsx:156-160 | The step becomes the back step of the old one, and nothing else changes. |

## Left out

- Lower-casing is ASCII-only. JavaScript's `toLowerCase` also folds non-ASCII letters, and the model cannot express that.
- Rule severities and the `daysSinceOrderOver` threshold are integers. JSON numbers may be fractional. Confidence uses exact reals rather than floating point.
- An action other than "stop" or "modify" is modelled as `Interject`. The outcome only tests for those two.
- JSON parsing of schema text is not modelled. `EditSchema` receives what parsing yields, `None` for invalid text.
- `Date.now()` message ids are a parameter `now`.
- Rendering, navigation, the loading flags and the `setTimeout` that clears the admin page's success message are not modelled. They carry no logic the model needs.
- Network requests become parameters:
  - what a fetch delivered;
  - whether a save reached the server;
  - the authentication result;
  - the saved user.

  The server's answer to a save is computed by `AdminController.UpdateConfig` on the table.
- React effect scheduling is not modelled. `Onboarding.Wizard.Resume` is the body of the effect on `[user, navigate]`, which runs on mount and again after every change of `user`. So a caller must run `Resume` after a successful `Step1Submit` and after a `Next` whose save returned a record. `Onboarding.Wizard.SignIn` and `Onboarding.Wizard.Advance` are those two sequences. The layout request that the same effect repeats is `LoadConfig`, left to the caller.
- The table's autoincrement id column is not modelled. The order of rows with equal (page, display order) keys is modelled as table order; SQLite does not guarantee this order.
- `getConfig`'s 500 response and `updateConfig`'s catch-all 500 are left out. The only failure modelled is the UNIQUE violation, which `AdminController.UpdateConfig` proves cannot happen for an accepted layout.
- `backend/src/controllers/authController.js` is not part of this model. Authentication is the `AuthResult` parameter.
- AdminPage.MoveKeepsValidLayout: requires the moved component to be on one of the pages. A name on neither page would be appended, breaking the layout. The page only offers moves of listed components.
- AdminPage.AdminView.MoveComponent: promises a valid result only for a component already in the layout, for the same reason.
- The seeded fixtures marked clean are not proved to count 0, only the three marked as violations are proved flagged. Negative substring facts over those long literal texts are beyond the solver budget.
