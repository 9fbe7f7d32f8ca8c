# Competition team registration — a Dafny model of the form and report logic

The front end lists competition activities, lets a school register a team
through a three-page form, and shows the registered teams and a summary
report. All of its state lives in one component, `App` in `App.tsx`. This
project models the logic of that component:

- **activity lookup** (`Catalog`): `activities.find(a => a.id === id)`. This
  is a first-match search in load order.
- **activity filter** (`ActivityFilter`): the list under the category and
  activity selectors. The value `"all"` matches anything.
- **summary report** (`Report`): teams folded into counters keyed by the
  *name* of their activity. Teams whose activity does not resolve are skipped.
- **registration form** (`RegistrationForm`): the draft record, its field and
  member handlers, and the "next"/"back" step buttons with their guards.
- **submit** (`Submission`): the guard, the payload, and the effect of the
  store's reply. The request is asynchronous, so a submit is two transitions.
  `BeginSubmit` raises the in-flight flag and produces the payload.
  `FinishSubmit` applies the reply: on success it appends the team and resets
  the form; on failure it only clears the flag.
- **the component as a whole** (`Session`): user actions and replies as
  events, and the facts every sequence of events keeps.
- **worked examples** (`Scenarios`): small concrete event sequences, proved.

The entities (`Types`) follow `types.ts`. Identifiers and text are `string`.
Member counts are `nat`.

Two behaviours of the code are easy to miss, and the model keeps both:

- The change handler resets `level` and the member slots whenever it receives
  an activity identifier that resolves. This includes the identifier already
  chosen, and it happens on every page, not only on the first: the
  "register" link on each activity card calls the handler from anywhere
  (`App.tsx:265`). The step does not move. So on page 3, pressing the card of
  the current activity clears the level and the member entries. The browser
  holds back a submit until the required member inputs are filled again
  (`App.tsx:333-345`). Once the member slots are filled in again, a submit
  sends an empty level, which the first page's "next" guard would have
  refused. `Scenarios.ReselectOnLastPageSendsEmptyLevel` shows
  this.
- "Back" is not always available. The third page, back button included, is
  drawn only while the draft's activity resolves (`App.tsx:325`).
  `RegistrationForm.Back` models this.

## Model

| member | source | states |
|---|---|---|
| `Catalog.Find` | App.tsx:178 | The result is None exactly when no activity has the identifier. Otherwise it is the activity at the first index with that identifier. |
| `Catalog.FindReturnsMatchingId` | App.tsx:86 | A resolved activity carries the requested identifier and is one of the loaded activities. |
| `ActivityFilter.Filter` | App.tsx:166-172 | Every listed activity is loaded and admitted by both selectors. The list is never longer than the input. |
| `ActivityFilter.FilterAllIsIdentity` | App.tsx:168-169 | With both selectors on "all", the list is the loaded activities, unchanged and in order. |
| `ActivityFilter.FilterPositions` | App.tsx:167-171 | Gives strictly increasing positions in the input at which the listed activities occur, in list order. |
| `ActivityFilter.FilterIsSubsequence` | App.tsx:167-171 | The list is an order-preserving subsequence of the loaded activities. |
| `ActivityFilter.FilterMultiplicity` | App.tsx:167-171 | An activity occurs in the list as often as in the input when both selectors admit it, and never otherwise. |
| `ActivityFilter.FilterMembership` | App.tsx:168-170 | An activity is listed iff it is loaded, matches the category selector, and matches the activity selector. "all" matches anything. |
| `ActivityFilter.FilterByCategory` | App.tsx:168 | A chosen category with the activity selector on "all" lists exactly the loaded activities of that category. |
| `Report.AddTeam` | App.tsx:178-187 | A team whose activity does not resolve leaves the report unchanged. Otherwise only the row under its activity's name changes: it is created at zero if absent, then teams +1, teachers and students by the list lengths, and total by their sum. |
| `Report.Summarize` | App.tsx:174-190 | Every row's total equals its teacher count plus its student count. |
| `Report.SummarizeByName` | App.tsx:177-187 | A row exists for a name iff some team resolves to an activity of that name. Its counters are the team count, teacher count and student count of those teams, plus their sum. |
| `Report.UnknownTeamIgnored` | App.tsx:178-179 | A team whose activity does not resolve can be removed from anywhere in the team list without changing the report. |
| `Report.ReportCountsKnownTeams` | App.tsx:177-183 | The team counts over all rows add up to the number of teams whose activity resolves. |
| `Report.ReportTotalsKnownMembers` | App.tsx:184-186 | The totals over all rows add up to the number of teachers and students in teams whose activity resolves. |
| `RegistrationForm.Set` | App.tsx:83 | The named field takes the new value. Every other field and both member lists are unchanged. |
| `RegistrationForm.Placeholders` | App.tsx:92-93 | Exactly n member slots, each with an empty name and an empty detail. |
| `RegistrationForm.HandleFormChange` | App.tsx:81-97 | Choosing an activity that resolves does four things. It sets the identifier and clears the level. It lays out exactly the composition's number of blank teacher and student slots. It leaves school, team name and contact fields unchanged. Any other change, including an identifier that does not resolve, changes only that one field. |
| `RegistrationForm.HandleMemberChange` | App.tsx:99-105 | One half of slot i of one list takes the value. The other half, the other slots, the list length, the other list and all text fields are unchanged. |
| `RegistrationForm.Next` | App.tsx:307-320 | The step advances by one iff the page has an enabled "next" button. Page 1 needs activity, level and school non-empty. Page 2 needs contact name, phone and e-mail non-empty. Otherwise the step is unchanged. Steps stay within 1..3. |
| `RegistrationForm.Back` | App.tsx:319-351 | The step goes back by one iff the page has a "back" button: page 2, or page 3 while the activity resolves. Of the draft, only whether its activity identifier resolves is consulted; the fields typed on the page are not. Steps stay within 1..3. |
| `RegistrationForm.BackUndoesNext` | App.tsx:107-108 | While the activity resolves, "back" returns to the step an enabled "next" left. |
| `RegistrationForm.ChoosingActivityDisablesNext` | App.tsx:307 | Right after an activity is chosen, the first page's "next" is disabled, because the level was cleared. |
| `RegistrationForm.EditsPreserveFit` | App.tsx:81-105 | Field and member edits keep the member lists sized for the draft's resolved activity. |
| `Submission.BuildPayload` | App.tsx:116-128 | Each payload field equals the draft field of the same name: activity, team name, school, level, teachers and students. The contact is the draft's contact name, phone and e-mail, grouped. |
| `Submission.PayloadCopiesDraft` | App.tsx:116-128 | The payload and the draft correspond one to one in both directions: no draft content is lost and nothing is added. |
| `Submission.BeginSubmit` | App.tsx:110-128 | With no resolved activity or a submit in flight, nothing is sent and nothing changes. Otherwise the in-flight flag rises and the payload built from the current draft is sent. |
| `Submission.FinishSubmit` | App.tsx:145-163 | On success the returned team is appended once at the end, and the draft and step return to their initial values. On failure, teams, draft and step are unchanged. The in-flight flag is down afterwards either way. |
| `Submission.SingleFlight` | App.tsx:112 | Pressing submit while a submit is in flight sends no request and changes nothing. |
| `Submission.FailedSubmitRestores` | App.tsx:155-163 | A submit that fails leaves the component exactly as it was before the press. |
| `Submission.SucceededSubmitAppends` | App.tsx:145-154 | A submit that succeeds leaves the starting state over the old team list plus the returned team. |
| `Session.Apply` | App.tsx:81-164 | One event keeps the step within 1..3. Only a successful reply changes the team list, and it appends the returned team. "Next" and "back" leave the draft and the in-flight flag unchanged. Field and member edits leave the step and the in-flight flag unchanged. |
| `Session.StepStaysValid` | App.tsx:107-108 | Every sequence of events keeps the step within 1..3. |
| `Session.TeamsOnlyGrow` | App.tsx:146 | The team list before a sequence of events is a prefix of the list after it. It grows by at most one team per successful reply. |
| `Session.ApplyPreservesFit` | App.tsx:85-104 | One event keeps the member lists sized for the draft's resolved activity. This assumes no activity uses the empty identifier. |
| `Session.MemberListsFitActivity` | App.tsx:85-104 | Every sequence of events keeps the member lists sized for the draft's resolved activity. This assumes no activity uses the empty identifier. |
| `Scenarios.FilterExample` | App.tsx:166-172 | Category "cat-1" lists only its activity. Activity "act-1" lists only that activity. "all"/"all" lists everything in order. |
| `Scenarios.ReportExample` | App.tsx:174-190 | Two "act-1" teams give "Math" 2 teams, 2 teachers, 3 students, 5 in total. A team of an unknown activity adds nothing. |
| `Scenarios.SharedNameSharesRow` | App.tsx:180-186 | Two activities named "Math" with different identifiers share one row. |
| `Scenarios.NextNeedsLevel` | App.tsx:307 | The first page's "next" is disabled without a level and enabled with activity, level and school. |
| `Scenarios.FillFirstPage` | App.tsx:85-94 | Choosing "act-1" (1 teacher, 1 student) lays out one slot of each. After level and school are filled, "next" moves to page 2. |
| `Scenarios.FillSecondPage` | App.tsx:320 | After the three contact fields are filled, "next" moves to page 3. |
| `Scenarios.FillMembers` | App.tsx:99-105 | Member edits fill the two slots. |
| `Scenarios.ReselectOnLastPageSendsEmptyLevel` | App.tsx:85-94 | On page 3, choosing the already chosen activity again keeps step 3, clears the level and resets the member slots to blanks. After the four member inputs are filled again, the step is still 3 and a submit sends an empty level. |
| `Scenarios.SubmitFilledForm` | App.tsx:116-154 | The payload carries exactly one teacher and one student. A successful reply lists the returned team once and starts the form over. |

## Left out

- Loading categories, activities and teams at start-up (`App.tsx:49-77`) is HTTP I/O. The loaded lists are parameters: activities are passed to every operation, and teams are the session's initial team list.
- The HTTP and JSON details of the POST (`App.tsx:131-143`) are left out. The reply becomes the abstract `Outcome`: `Success` with the returned team, or `Failure`. `Failure` stands for every failure path: transport error, non-OK status, a tag other than "success", or missing data.
- `alert`, `console.error`, the loading and error screens, and the `finally` sequencing are side effects or rendering. Only their effect on state is modelled.
- All markup, the `FormInput`/`FormSelect` helpers, `components/Badge.tsx` and `components/Section.tsx` are presentation.
- The file-upload section and the administrator and editing prose sections are non-functional placeholders.
- The activity dropdown of the filter bar (`App.tsx:246`) repeats the category predicate. `ActivityFilter.CategoryMatch` is that predicate.
- The browser's validation at submit is left out. This covers the `required` fields and the e-mail format check on the teacher e-mail inputs (`type="email"`, `App.tsx:334`). The code makes no check of its own that member slots are filled or well formed, so the model does not either.
- `constants.ts` seed data is not used by the component. The scenarios use their own small data.
- `RegistrationForm.HandleMemberChange`: requires an index inside the list. The form draws inputs only for existing slots. JavaScript would extend the array for a larger index. `Session.Apply` ignores such an edit.
- `Report.Summarize`: keys are ordinary strings. A plain JavaScript object would already have a truthy entry for inherited names such as "constructor", and counting into it would give NaN. That case is not modelled.
- Counts are unbounded naturals. JavaScript numbers are exact only up to 2^53. `Array.from({length: n})` converts n with ToLength: a negative or NaN n gives an empty list, a fractional n is truncated, and only a length of 2^32 or more throws a RangeError. Such compositions are not representable, because a composition is a pair of naturals.
- The order in which the report rows are drawn (`Object.entries`) is left out. The report is a map.
- `Session.MemberListsFitActivity`: assumes no activity has the empty identifier. The empty draft carries that identifier and empty member lists.
