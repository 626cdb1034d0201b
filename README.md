# Dashboard grouping and sign-up validation, modelled in Dafny

This project models the two pieces of logic in the one-on-one meeting app
that stand on their own, apart from the web framework and the ORM.

- **Dashboard view model** (`module Dashboard`, `dashboard.dfy`). The loader
  projects the meetings a user authored to `{id, title, date,
  discussionPointCount}`. It then folds them into an ordered list of
  `{date, meetings}` groups keyed by the calendar-day string of each
  meeting's date. The fold is imperative. For each meeting it searches the
  groups built so far for that day (`FindGroup`). On a hit it pushes the
  meeting into that group object in place (`MeetingsGroupedByDate.Push`). On
  a miss it appends a new group. `GroupByDay` is proved equal to a
  declarative reference, `GroupedByDay`: one group per distinct day, in
  first-occurrence order, each holding every meeting of its day. The
  partition properties are proved about that reference. The insights tile's
  "mention"/"mentions" rule is `MentionText`.
- **Sign-up action** (`module Join`, `join.dfy`). The form fields go through
  a fixed chain of checks (`ValidateForm`). Each failure answers 400 with an
  error record in which exactly one of `email`, `password`, `firstName` and
  `lastName` is set. Then the user store is asked whether the e-mail is
  taken. If not, the user is created and a session with `remember: false`
  is started. The reference `RegistrationOutcome` states the rule as "the
  first failing check of six, in a fixed order, decides". `Action` runs
  over a mutable `UserStore` and is proved to answer exactly that and to
  change the store only on success.

`Date.toDateString()` depends on the server's time zone. It is the
parameter `dayKey: Date -> string`, and nothing is assumed about it. The
input order is whatever the query returns (there is no `orderBy`), so
every statement holds for any input sequence. `validateEmail` is the
parameter `validEmail: string -> bool`. A form entry that is not a string
(absent, or a file) is never a valid e-mail, because the source passes
the checked e-mail on as a string.

## Model

| member | source | states |
|---|---|---|
| `Dashboard.MapMeetings` | app/routes/dashboard.tsx:29-36 | same length and order; each output keeps its meeting's id, title and date, and its count is that meeting's number of talking points |
| `Dashboard.FindGroup` | app/routes/dashboard.tsx:39-41 | returns the index of the first group whose date equals the key, or none exactly when no group has that date |
| `Dashboard.MeetingsGroupedByDate.constructor` | app/routes/dashboard.tsx:48-51 | a new group holds the day key and just the one meeting |
| `Dashboard.MeetingsGroupedByDate.Push` | app/routes/dashboard.tsx:44-45 | the meeting is appended at the end of the group's own list, in place |
| `Dashboard.PushKeepsOthers` | app/routes/dashboard.tsx:44-45 | pushing into group j changes group j of the accumulator and no other group, because no two groups share a day |
| `Dashboard.GroupByDay` | app/routes/dashboard.tsx:38-55 | the reduce yields fresh group objects whose contents equal the reference grouping of the input |
| `Dashboard.Snapshot` | app/routes/dashboard.tsx:57-59 | the value sent as `meetingGroups` has one entry per group, with that group's current day and meetings |
| `Dashboard.Loader` | app/routes/dashboard.tsx:17-59 | the loader's `meetingGroups` is the reference grouping of the projected meetings |
| `Dashboard.GroupedByDayHit` | app/routes/dashboard.tsx:39-45 | a meeting whose day already has group j extends group j only, at its end |
| `Dashboard.GroupedByDayMiss` | app/routes/dashboard.tsx:46-51 | a meeting whose day has no group adds one singleton group at the end |
| `Dashboard.DayKeysCharacterized` | app/routes/dashboard.tsx:39-52 | a day is listed exactly when some meeting falls on it, and no day is listed twice |
| `Dashboard.GroupDatesDistinct` | app/routes/dashboard.tsx:39-52 | no two groups have the same day key |
| `Dashboard.GroupingIsPermutation` | app/routes/dashboard.tsx:38-55 | concatenating all groups' meetings gives a permutation of the input |
| `Dashboard.GroupedByDayIsPartition` | app/routes/dashboard.tsx:38-55 | permutation and same total count; each meeting lies in the group of its own day; keys are distinct; no group is empty; every input meeting's day has a group; the input is empty exactly when there are no groups |
| `Dashboard.DayKeysFollowFirstOccurrence` | app/routes/dashboard.tsx:46-51 | the distinct days are listed in strictly increasing order of their first position in the input |
| `Dashboard.GroupsFollowFirstOccurrence` | app/routes/dashboard.tsx:46-51 | groups appear in the order in which their day first occurs in the input |
| `Dashboard.FirstIndexOfPrefix` | app/routes/dashboard.tsx:46-51 | appending meetings does not move the first occurrence of a day that already occurred |
| `Dashboard.MeetingsOnSelectsPositions` | app/routes/dashboard.tsx:44-45 | a day's meetings are exactly the input meetings at that day's positions, in increasing position order |
| `Dashboard.GroupsAreStable` | app/routes/dashboard.tsx:44-45 | within each group, meetings keep their relative input order: group j is the input read at the increasing positions of its day |
| `Dashboard.MeetingsOnAbsentDay` | app/routes/dashboard.tsx:39-52 | a day on which no meeting falls has no meetings |
| `Dashboard.TwoDaysExample` | app/routes/dashboard.tsx:38-55 | two meetings on one day and one on another give two groups, the first holding the two in input order |
| `Dashboard.MentionText` | app/routes/dashboard.tsx:271 | the text is "mention" exactly when the count is 1, and "mentions" otherwise |
| `Join.ErrorsFor` | app/routes/join.tsx:25-109 | the error record sets the blamed field to the message and every other field to null, so exactly one field is non-null |
| `Join.FirstFailing` | app/routes/join.tsx:25-109 | returns the first failing check, with every earlier check passing, or none exactly when all checks pass |
| `Join.RegistrationOutcome` | app/routes/join.tsx:25-111 | a failure has exactly one non-null field; a success carries the submitted strings, with a valid untaken e-mail, non-empty names and a password of at least 8 characters |
| `Join.FirstFailingCheckDecides` | app/routes/join.tsx:25-109 | the reply is the error of the first failing check, in the fixed order e-mail, first name, last name, password present, password length, e-mail taken |
| `Join.ChecksRunInOrder` | app/routes/join.tsx:25-109 | an invalid e-mail wins over everything; a missing first name wins once the e-mail is valid; a missing last name once both earlier fields pass; "Password is required", then "Password is too short", once the earlier fields pass; a taken e-mail is reported only when every field check passes |
| `Join.ValidateFormMatchesOutcome` | app/routes/join.tsx:25-94 | the early-return chain fails exactly as the first five reference checks do; on success, only the duplicate-e-mail check remains |
| `Join.RegistersIffEveryCheckPasses` | app/routes/join.tsx:25-111 | sign-up succeeds exactly when the e-mail is valid and not taken, both names are non-empty and the password has at least 8 characters |
| `Join.ShortPasswordNeverRegisters` | app/routes/join.tsx:82-94 | a password shorter than 8 characters is rejected whatever the other fields hold |
| `Join.SingleFaultIsReported` | app/routes/join.tsx:25-109 | when exactly one check fails, the reply names that check's field with its message and no other field |
| `Join.UserStore.GetUserByEmail` | app/routes/join.tsx:96-97 | finds a user exactly when the e-mail is registered, and that user has that e-mail |
| `Join.UserStore.CreateUser` | app/routes/join.tsx:111 | adds exactly one user, under its e-mail, and keeps every other user |
| `Join.Action` | app/routes/join.tsx:17-119 | answers 400 with the reference's error, leaving the store unchanged, or creates the user under its new e-mail and starts a session with `remember: false` and the redirect target; every error reply has status 400 and one non-null field |

## Left out

- Rendering: the JSX, the styling, the chart data and options, the tag icons and the modal.
- The real meaning of `Date.toDateString()`, which depends on time zone and locale. It is the parameter `dayKey`.
- `validateEmail`, `safeRedirect`, `getUserByEmail`, `createUser` and `createUserSession` are not part of this model. Their code is not shown. The e-mail rule is a parameter. The redirect target and the id the database gives a new user are parameters of `Action`. The store is a map from e-mail to user. Password hashing is not modelled.
- Dashboard.GroupByDay: the accumulator list is a local sequence that is reassigned, not a shared JavaScript array. The group objects are real objects updated in place. Nothing else holds the accumulator, so no aliasing is lost.
- Dashboard.FindGroup: returns the group's index rather than the group object, so that the caller can push into it.
- Dashboard.MentionText: the count is an integer. A JavaScript number may also be fractional or `NaN`. Every such value also gives "mentions".
- Join.RegistrationOutcome: string lengths count Unicode characters. JavaScript's `length` counts UTF-16 code units, so a password with characters outside the Basic Multilingual Plane can be 8 units long but fewer characters here.
- Join.Action: database errors from `createUser` are not modelled. This includes a race in which another request registers the same e-mail between the lookup and the insert. Such errors are thrown and not caught in the source.
- The user-id and session lookup at the start of the dashboard loader (`requireUserId`, `findUniqueOrThrow`) and the `findMany` query. The model starts from the list of authored meetings.
- The other routes (new meeting, meeting overview, talking points, comments) and the seed script are outside this model.
