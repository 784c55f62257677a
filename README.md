# StockMind daily digest and sign-in, modelled in Dafny

StockMind lets a signed-in user follow companies and industries ("tags"), each with a list of
watch-items ("catalysts"). Once a day a job walks every user's tags in load order:

- For each tag it asks the AI generator for an assessment (points, sentiment, summary).
- It stores the assessment as a `tagAssessment` row and waits before the next tag.
- It mails the user one HTML digest of the tags that worked.

Three entry points run this job:

- the scheduled route `POST /api/cron/daily-report`, behind a shared secret;
- the command-line script `scripts/generate-daily-report.ts`;
- the capped test script `scripts/test-daily-flow.ts`, which runs for one user and at most two tags.

Sign-in uses a development credentials provider. It finds a user by email or creates one. The
`jwt` and `session` callbacks then carry that user's id into the session. A route guard keeps
`/dashboard` for signed-in users.

The model is split into these modules:

- `Domain` (domain.dfy): the entities as the bulk load returns them (user, tag, catalyst), the
  generator's assessment, a digest entry, an assessment row, and JavaScript truthiness of an
  optional string.
- `EmailHtml` (email_html.dfy): `generateEmailHtml`, `getColor` and `translateSentiment`.
  - These are pure functions over strings.
  - The header title and the formatted date are parameters. The two daily entry points use
    "每日投資速報"; the test script adds " (測試版)".
- `DailyReport` (daily_report.dfy): the tag loop and the user loop.
  - The cron route and the command-line script share both loops.
  - The test script shares only the tag loop (`ProcessTags`). It has its own user selection and
    mail step, with a 2000 ms delay.
  - The loops are methods (`ProcessTags`, `ProcessUser`, `ProcessUsers`).
  - Each method is proved equal to a specification function (`RunTags`, `UserStep`, `RunUsers`).
  - The properties are lemmas about those functions.
  - The generator, the database write and the mailer are oracles in `Env`:
    - `generate(i, j)` is the answer for tag j of user i, or `None` when the call throws;
    - `persist(i, j)` says whether the row write succeeds;
    - `deliver(i)` says whether user i's mail is sent or throws with a message.
  - A run yields the rows written, an event trace and the message of the error that ended it.
    The trace holds generator calls, delays, caught tag errors, mailer calls and notices.
- `CronRoute` (cron_route.dfy): the route handler. It covers the secret check, the 401 / 200 /
  500 responses, and the outer catch that turns an error into a 500 whose body is the error's
  message, or "Internal Error" when that message is empty.
- `GenerateDailyReport` (generate_daily_report.dfy): the command-line `main`.
- `TestDailyFlow` (test_flow.dfy): the test script's `main`:
  - the `findFirst` query;
  - the cap of two tags;
  - the early return;
  - the 2000 ms delay;
  - the skip notice.
- `AuthConfig` (auth_config.dfy): the `authorized` guard.
- `Auth` (auth.dfy): `authorize` as a method of a `UserStore` class over the user table; the
  `jwt` and `session` callbacks as methods that update a token object and a session object in
  place.

Three points where the code decides:

- A failed mail is not caught inside the user loop. It ends the whole run:
  - the route answers 500 with the mailer's message (or "Internal Error" when that message is empty);
  - the command-line script logs the rejection and stops.

  Users after the failing one are not processed.
- The delay of a tag comes after its row write, inside the `try`. A tag whose generator call or
  row write throws gets no delay.
- The secret check compares the whole `authorization` header with `Bearer <secret>`, and only
  when a non-empty secret is configured.

## Model

| member | source | states |
|---|---|---|
| Domain.CatalystContents | app/api/cron/daily-report/route.ts:43 | the watch-items sent to the generator are the catalysts' texts, one per catalyst, in catalyst order |
| EmailHtml.GetColor | app/api/cron/daily-report/route.ts:138-142 | the border is green exactly for "POSITIVE", red exactly for "NEGATIVE", and grey for every other string |
| EmailHtml.TranslateSentiment | app/api/cron/daily-report/route.ts:144-148 | the badge reads 看多 exactly for "POSITIVE", 看空 exactly for "NEGATIVE", and 中立 for every other string |
| EmailHtml.ColorAndLabelAgree | app/api/cron/daily-report/route.ts:138-148 | two sentiments get the same colour if and only if they get the same label |
| EmailHtml.ToLowerAscii | app/api/cron/daily-report/route.ts:120 | the badge class has the sentiment's length, lowers each letter, and contains no upper-case ASCII letter |
| EmailHtml.BadgeClasses | app/api/cron/daily-report/route.ts:120 | the three sentiment literals select the `positive`, `negative` and `neutral` classes of the style sheet |
| EmailHtml.MapRender | app/api/cron/daily-report/route.ts:116 | `map` renders one part per item, the k-th part from the k-th item |
| EmailHtml.MissingSummaryIsEmpty | app/api/cron/daily-report/route.ts:122 | a card without a summary is the same as a card with an empty summary |
| EmailHtml.SummaryText | app/api/cron/daily-report/route.ts:122 | the summary shown is the assessment's own summary, or the empty string when it is missing |
| EmailHtml.JoinAppend | app/api/cron/daily-report/route.ts:127 | `join('')` of a concatenation is the concatenation of the joins |
| EmailHtml.CardsInOrder | app/api/cron/daily-report/route.ts:116-127 | the page holds one card per digest entry, in entry order: for each k, the k-th entry's card lies between the cards of the entries before it and after it |
| EmailHtml.CardAt | app/api/cron/daily-report/route.ts:85-136 | the mailed page starts with the header, then the cards of the digest entries before the k-th, then the k-th entry's card, for every k |
| EmailHtml.PointsRoundTrip | app/api/cron/daily-report/route.ts:124 | the rendered `<li>` list reads back as exactly the points, in order, when no point contains '<' |
| EmailHtml.RenderPoints | app/api/cron/daily-report/route.ts:124 | every point renders to at least an empty `<li></li>`, so the list is empty exactly when there are no points |
| EmailHtml.RenderCard | app/api/cron/daily-report/route.ts:116-126 | a card opens with the left border in the sentiment's colour, shows the tag's name right after the title row's opening, and ends with the entry's point list |
| EmailHtml.EmailHtml | app/api/cron/daily-report/route.ts:85-136 | the page is the header with the title and the date, then the cards of the digest list, then the footer, each at its own place |
| EmailHtml.TitleInHeader | app/api/cron/daily-report/route.ts:112 | the title appears verbatim right after the opening `<h2>` |
| EmailHtml.TestPageMarked | scripts/test-daily-flow.ts:34 | the test page is the daily page with " (測試版)" inserted right after the daily title, and otherwise the same |
| DailyReport.TagStep | app/api/cron/daily-report/route.ts:40-67 | one pass of the tag loop writes one row and pushes one digest entry exactly when the tag's generator call and row write both succeed, and otherwise neither; the order of its events (call, then delay or caught error) is stated by `TagTraceShape` |
| DailyReport.RunTags | app/api/cron/daily-report/route.ts:39-68 | the tag loop pushes one digest entry per row written, and writes at most one row per tag |
| DailyReport.SucceededTags | app/api/cron/daily-report/route.ts:39-67 | lists, in increasing order, exactly the positions of the tags whose generator call and row write both succeeded |
| DailyReport.DigestMatchesSuccesses | app/api/cron/daily-report/route.ts:39-67 | the digest list and the rows written correspond one to one with the successful tags: the k-th entry is the k-th successful tag's assessment under the tag's name, and the k-th row is that assessment under the tag's id |
| DailyReport.TagTraceShape | app/api/cron/daily-report/route.ts:39-67 | tags are handled one at a time in load order: each gets its generator call (name and catalyst texts), then the 4000 ms delay on success or the caught error otherwise |
| DailyReport.TagTraceCounts | app/api/cron/daily-report/route.ts:39-67 | over n tags: n generator calls, one delay per row written, one caught error per tag without a row, and no mail |
| DailyReport.GeneratesInOrder | app/api/cron/daily-report/route.ts:39-44 | the generator calls of the tag loop are exactly the calls for the tags, in tag order |
| DailyReport.ProcessTags | app/api/cron/daily-report/route.ts:39-68 | the tag loop produces exactly the digest list, rows and trace of `RunTags` |
| DailyReport.Eligible | app/api/cron/daily-report/route.ts:34 | a user is processed exactly when its email is present and non-empty and it has at least one tag |
| DailyReport.UserStep | app/api/cron/daily-report/route.ts:34-75 | one pass of the user loop writes at most one row per tag of the user |
| DailyReport.RunUsers | app/api/cron/daily-report/route.ts:33-82 | the user loop's specification: the users' passes in load order, appended one after the other, and nothing after the first failed mail; what it guarantees is stated by `AbortIsFinal`, `FailureIsStop`, `MailsFollowUsers`, `FailureComesFromMail`, `RowsMatchSuccesses` and `RowsAreReachedSuccesses` |
| DailyReport.EmailsUserIffSuccess | app/api/cron/daily-report/route.ts:34-75 | a reached user is mailed if and only if it has a non-empty email and at least one of its tags succeeded |
| DailyReport.Emailed | app/api/cron/daily-report/route.ts:33-76 | the mailed users are listed in strictly increasing load order, and each has an email and a tag |
| DailyReport.EmailedExactly | app/api/cron/daily-report/route.ts:33-76 | user i is mailed if and only if no earlier mail failed and user i has an email and a successful tag |
| DailyReport.UserMailedOnce | app/api/cron/daily-report/route.ts:34-75 | a skipped user costs nothing; an eligible user gets exactly one mail, as the last step of its pass, when it has a successful tag, and otherwise none |
| DailyReport.UserFailure | app/api/cron/daily-report/route.ts:70-73 | a user's pass fails exactly when its mail is sent and the mailer throws, with the mailer's message |
| DailyReport.AbortIsFinal | app/api/cron/daily-report/route.ts:73-81 | once a mail has failed, later users change nothing: no rows, no events, the same failure |
| DailyReport.MailFailureEndsRun | app/api/cron/daily-report/route.ts:73-81 | a failed mail to user m ends the run with that mail's message, and the run over all users equals the run up to user m |
| DailyReport.FailureIsStop | app/api/cron/daily-report/route.ts:73-81 | the run has failed if and only if some mail failed, and its message is the failure message of the mail to one of the users processed that the run reaches (no earlier mail failed) and mails (eligible, with a non-empty digest list) |
| DailyReport.MailsFollowUsers | app/api/cron/daily-report/route.ts:70-74 | the mailer calls of a run are exactly the digest mails of the mailed users, once each, in user order, each to the user's address with the rendering of that user's digest list |
| DailyReport.FailureComesFromMail | app/api/cron/daily-report/route.ts:70-82 | a run without failure sent every mail successfully; a failed run failed on its last mail, with that mail's message, after every earlier mail went through |
| DailyReport.RowsMatchSuccesses | app/api/cron/daily-report/route.ts:39-68 | over a whole run, the rows written equal the delays, and every generator call ended in a delay or a caught error |
| DailyReport.RowsAreReachedSuccesses | app/api/cron/daily-report/route.ts:33-76 | over a whole run, as many rows are written as there are successful tags (generator call and row write both succeeded) of the users the run reaches before any mail failure and does not skip |
| DailyReport.ProcessUser | app/api/cron/daily-report/route.ts:34-75 | the loop body produces exactly the rows, trace and failure of `UserStep` |
| DailyReport.ProcessUsers | app/api/cron/daily-report/route.ts:33-76 | the user loop, left on the first failed mail, produces exactly the rows, trace and failure of `RunUsers` over all users |
| CronRoute.Refused | app/api/cron/daily-report/route.ts:17-18 | a request is refused exactly when a non-empty secret is configured and the header is missing, does not start with "Bearer ", or does not continue with exactly the secret |
| CronRoute.PostSpec | app/api/cron/daily-report/route.ts:15-83 | the route answers 200, 401 or 500; a 200 carries the success body; nothing is generated, written or mailed unless the request is admitted and the users are loaded |
| CronRoute.ErrorResponse | app/api/cron/daily-report/route.ts:79-82 | the outer catch answers 500 with the error's message, or "Internal Error" when the message is empty; the body is never empty |
| CronRoute.Post | app/api/cron/daily-report/route.ts:15-83 | the handler's response, rows and trace are those of `PostSpec` |
| CronRoute.SecretGuard | app/api/cron/daily-report/route.ts:17-20 | the answer is 401 if and only if a non-empty secret is configured and the header differs from `Bearer <secret>`; a 401 carries "Unauthorized" and, whatever the load would return, generates, writes and mails nothing |
| CronRoute.StatusReflectsMail | app/api/cron/daily-report/route.ts:70-82 | an admitted request over loaded users answers 200 if and only if every mail went through; otherwise it answers 500 with the failing last mail's message (or "Internal Error" when that message is empty) |
| GenerateDailyReport.MainSpec | scripts/generate-daily-report.ts:74-138 | a failed load does nothing else and ends the script with its message; otherwise the script fails exactly when some user's mail failed |
| GenerateDailyReport.GenerateReports | scripts/generate-daily-report.ts:74-134 | `main` produces exactly the rows, trace and failure of the load followed by the user loop with the daily page |
| GenerateDailyReport.SameAsRoute | scripts/generate-daily-report.ts:89-131 | the script and an admitted request to the route write the same rows and produce the same events; the script fails exactly when the route answers 500, and the route's body is then the script's error message when that message is non-empty (an empty message gives "Internal Error") |
| GenerateDailyReport.StopsAtFailedMail | scripts/generate-daily-report.ts:126-138 | after the first failed mail nothing else happens, and the script ends with that mail's message |
| TestDailyFlow.FirstWithTags | scripts/test-daily-flow.ts:78-82 | finds the first user in load order with at least one tag, or reports that none has one |
| TestDailyFlow.TakeTags | scripts/test-daily-flow.ts:84-86 | keeps the first two tags in load order, or all of them when there are at most two |
| TestDailyFlow.TestUser | scripts/test-daily-flow.ts:78-94 | the chosen user has a non-empty email and a tag, and no earlier user has a tag; no user is chosen exactly when no user has a tag or the first user with a tag has no email |
| TestDailyFlow.TestFlow | scripts/test-daily-flow.ts:74-139 | the test run writes at most two rows, and fails only when the load fails or the chosen user's mail does, with that mail's message |
| TestDailyFlow.TestMain | scripts/test-daily-flow.ts:74-139 | the test `main` produces exactly the rows, trace and failure of `TestFlow` with the test page |
| TestDailyFlow.EarlyReturnDoesNothing | scripts/test-daily-flow.ts:91-94 | without a user that has a tag, or when that user has no email, the run only logs the notice: nothing is generated, written or mailed |
| TestDailyFlow.TriesFirstTwoTags | scripts/test-daily-flow.ts:84-105 | the generator is called for the chosen user's first two tags only, in order; there are no more rows than calls and at most two calls |
| TestDailyFlow.MailIffSuccess | scripts/test-daily-flow.ts:129-138 | when one of the tried tags succeeded, exactly one mail goes out, as the last event, to the chosen user; otherwise the skip notice is the last event, nothing is mailed and the run cannot fail |
| AuthConfig.Authorized | auth.config.ts:9-17 | a request is refused exactly when its path starts with "/dashboard" and no user is signed in |
| AuthConfig.StartsWith | auth.config.ts:11 | `startsWith` holds if and only if the prefix fits and the path's first characters are the prefix |
| AuthConfig.OutsideDashboardIsOpen | auth.config.ts:11-16 | a path that does not start with "/dashboard" is let through, signed in or not |
| AuthConfig.LoggedInNeverRefused | auth.config.ts:10-13 | a signed-in user is let through on every path |
| AuthConfig.DashboardNeedsUser | auth.config.ts:10-15 | a path that extends "/dashboard" is let through if and only if a user is signed in |
| AuthConfig.GuardIsPrefixTest | auth.config.ts:9-17 | without a user, the guard refuses exactly the paths of the form "/dashboard" + rest |
| AuthConfig.GuardExamples | auth.config.ts:11-16 | "/dashboard", "/dashboard/x" and "/dashboardx" are refused without a user; "/dash", "/" and "/auth/signin" are open |
| Auth.NameFromEmail | auth.ts:28 | the name is the longest prefix of the email without '@': either the whole email or the part before its first '@' |
| Auth.NameIsLocalPart | auth.ts:28 | for `local@domain` with no '@' in `local`, the name is `local` |
| Auth.FindByEmail | auth.ts:20-22 | finds the first stored user with the email, or reports that no stored user has it |
| Auth.SignIn | auth.ts:14-38 | the store either stays as it was or grows by the one user created from the email, and a returned user is one of the stored users |
| Auth.MissingEmailRefused | auth.ts:15 | a missing or empty email is refused and the store is unchanged |
| Auth.ExistingEmailReturnsStored | auth.ts:20-37 | a stored email signs in as the stored user, with its id, email and name; nothing is created |
| Auth.NewEmailCreatesOne | auth.ts:24-37 | a new email appends exactly one user, with the id the database chose and the email's local part as name, and returns it |
| Auth.ReturnedUserHasEmail | auth.ts:15-37 | `authorize` returns a user if and only if the email is non-empty, and that user carries the email |
| Auth.SignInTwice | auth.ts:19-31 | signing in twice with the same email returns the same user both times and creates at most one user in all |
| Auth.SignInKeepsEmailsDistinct | auth.ts:20-31 | sign-in keeps the stored emails unique |
| Auth.UserStore.Authorize | auth.ts:14-38 | the method updates the table and returns the user exactly as `SignIn` describes, and keeps the emails unique |
| Auth.JwtSub | auth.ts:44-46 | the token's subject becomes the signed-in user's id when that id is non-empty, and is otherwise left as it was |
| Auth.SessionId | auth.ts:50-52 | the session user's id becomes the token's subject when that subject is non-empty, and is otherwise left as it was |
| Auth.Jwt | auth.ts:42-48 | the callback returns the same token; `sub` becomes the user's id when that id is non-empty, and is otherwise unchanged |
| Auth.SessionCallback | auth.ts:49-54 | the callback returns the same session; a present session user gets the token's subject as id when that subject is non-empty, and is otherwise unchanged |
| Auth.SignedInIdReachesSession | auth.ts:42-54 | after a successful `authorize`, `jwt` and `session`, the session user's id is the signed-in user's id whenever that id is non-empty (`if (user?.id)` guards the copy into the token), whatever the token and session held before |

## Left out

- The style sheet and the template's whitespace are not modelled. The page is the template's markup around the title, the date, the cards and the footer, without indentation.
- `new Date().toLocaleDateString('zh-TW')` is not modelled: the formatted date is a parameter.
- EmailHtml.ToLowerAscii: `toLowerCase` is modelled for ASCII letters only. Other characters are left as they are.
- Template values are inserted without HTML escaping, as in the source. For this reason `EmailHtml.PointsRoundTrip` requires that no point contains '<'.
- `setTimeout` delays are recorded as `Delay` events, not waited for.
- `async`/`await` is treated as sequential execution, which matches how the loops await every call.
- Console logging is not modelled. The exceptions are the caught tag errors, the test script's skip notice and its "no suitable user" notice, which appear as events.
- `prisma.$disconnect`, `dynamic` and `maxDuration` are not modelled.
- lib/gemini and lib/email are not part of this model.
  - The generator's answer, the row write's outcome and the mailer's outcome are oracles.
  - A mailer that skips sending for lack of an API key counts as a sent mail.
- The database ordering of `findMany` and `findFirst` is taken to be the load order of the `users` sequence.
- The test query's `email: { not: undefined }` filter is modelled as excluding nobody.
- CronRoute.ErrorResponse: an error thrown without a string `message` is modelled as a message of "", so it gets the "Internal Error" fallback.
- Auth.UserStore.Authorize: the database chooses the id of a new user. Here it is the `newId` parameter.
- Auth.UserStore.Authorize: a stored user's name is modelled as always present.
- Auth.UserStore.Authorize: database errors in the `findUnique` lookup and in the `create` are not modelled, so `authorize` has no failure outcome here.
- NextAuth's own session and token handling is not modelled, nor how the guard is wired into the middleware. Only the callbacks' bodies are.
- The bulk load of users is modelled as either succeeding with every user or failing with a message.
