# Grammar teacher: a verified model of its core logic

Grammer-teacher is a small tutoring web application. Students take timed
grammar quizzes, book lessons with a teacher and write forum posts. An
Express server keeps every record in memory. This project models in Dafny
the parts of the application that decide something, and it proves what
they promise:

- **Quiz session** (`QuizInterface`). The state of one quiz attempt is a
  class: the current question, the answer map, the countdown and the
  results flag. It has answer selection, bounded navigation, the
  one-second tick that submits when time runs out, the scoring loop, the
  `MM:SS` display and the submission payload.
- **In-memory repository** (`Storage`, `Seed`, `OrderedMaps`, `KeyedMaps`).
  `MemStorage` holds seven insertion-ordered maps. It supports
  append-only creates, filtered lookups, the lesson merge and the seeded
  quizzes and resources.
- **Request handlers** (`Routes`). These cover bearer-token extraction,
  the 401/403 decision, registration with its ordered uniqueness checks,
  login, fetching a quiz, and the two creates that put the caller's id
  over the body.
- **Client auth manager** (`Auth`). It has a state, a listener list with
  subscribe and unsubscribe, login and logout over an abstract key/value
  store, and the derived header and role queries.
- **Record shapes and validation** (`Schema`). It has the records, their
  insert shapes, the column defaults and the request parsers, including
  the password confirmation rule.
- **Dashboard statistics** (`Dashboard`). It has the counts, the average
  percentage, progress, upcoming lessons, the five most recent activities,
  the badge thresholds and the difficulty colours.
- **Lesson booking dialog** (`Booking`). It covers 12-hour slot parsing
  and the 24-hour conversion, the guard against a missing date or time,
  the price lookup, the disabled rule and the reset on close.
- **Forum post dialog** (`ForumPost`). It covers the ordered submit
  checks, trimming, and the reset on close.

Helper modules:
- `Wrappers` holds Option and Result.
- `Text` models JavaScript's `trim`, `split`, `parseInt`, `toString` and
  `padStart` on strings.
- `JsMath` models `Math.round` and percentages, computed exactly over
  reals.
- `Seqs` holds filter, find, `indexOf` and slices.

`Findings` records three places where the server departs from what the
schema and the booking dialog intend: the lessons route refuses the time
the dialog sends, and the in-memory repository applies neither the lesson
status default nor the user role default that the schema declares.

Foreign code is passed in as function parameters:
- password hashing and comparison;
- token signing and verification;
- JSON stringify and parse;
- the e-mail format check;
- `Date.setHours`.

Fresh ids and the current time are passed in as values.

## Model

| member | source | states |
|---|---|---|
| QuizInterface.Score | client/src/components/quiz-interface.tsx:90-99 | the number of correct answers never exceeds the number of questions |
| QuizInterface.ScoreCountsCorrect | client/src/components/quiz-interface.tsx:93-97 | the score is exactly the number of positions whose question has an entry in the answer map equal to its correct answer |
| QuizInterface.ScoreOfNoAnswers | client/src/components/quiz-interface.tsx:94 | an empty answer map scores 0 |
| QuizInterface.ScoreIgnoresUnanswered | client/src/components/quiz-interface.tsx:94 | a question without an entry in the answer map adds nothing to the score |
| QuizInterface.ScoreIgnoresOtherIds | client/src/components/quiz-interface.tsx:94 | an answer under an id no question has leaves the score unchanged |
| QuizInterface.ScoreAllCorrect | client/src/components/quiz-interface.tsx:93-97 | answering every question correctly scores the number of questions |
| QuizInterface.Percentage | client/src/components/quiz-interface.tsx:153-154 | the result percentage is the rounded share of correct answers and lies in 0..100 |
| QuizInterface.PercentageAllCorrect | client/src/components/quiz-interface.tsx:153-154 | all answers correct gives 100 percent |
| QuizInterface.PercentageNoAnswers | client/src/components/quiz-interface.tsx:153-154 | no answers gives 0 percent |
| QuizInterface.NextTime | client/src/components/quiz-interface.tsx:77-84 | a tick above 1 second decrements by exactly one; a tick at or below 1 gives 0; the time is never negative |
| QuizInterface.CountdownBeforeSubmit | client/src/components/quiz-interface.tsx:77-84 | from t seconds, n < t ticks leave t - n seconds and submit nothing |
| QuizInterface.SubmitsRepeatedly | client/src/components/quiz-interface.tsx:76-87 | once the countdown reaches its last second, every later tick submits again (n - t + 1 submissions after n >= t ticks), since nothing clears the interval before cleanup |
| QuizInterface.OneMinuteQuiz | client/src/components/quiz-interface.tsx:74-84 | a one-minute quiz submits first on the 60th tick and again on the 61st |
| QuizInterface.JsRemainder | client/src/components/quiz-interface.tsx:123 | JavaScript's `%` truncates toward zero: it equals Euclidean remainder for non-negative operands and its negation on the absolute value otherwise |
| QuizInterface.Pad2Digits | client/src/components/quiz-interface.tsx:124 | a zero-padded number has at least two digits, exactly two below 100, and denotes the same value |
| QuizInterface.ParseClockOf | client/src/components/quiz-interface.tsx:121-125 | reading back "mm:ss" of digit strings gives 60 * minutes + seconds |
| QuizInterface.FormatTimeRoundTrip | client/src/components/quiz-interface.tsx:121-125 | `formatTime(s)` reads back as s (60 * mm + ss == s) and has a ':' before the last two digits |
| QuizInterface.RecordCorrect | client/src/components/quiz-interface.tsx:47 | a record is marked correct only when some question with that id has that correct answer, and never for an id no question has |
| QuizInterface.RecordCorrectDistinct | client/src/components/quiz-interface.tsx:47 | with distinct question ids, `correct` holds iff the matching question's correct answer equals the chosen answer |
| QuizInterface.Records | client/src/components/quiz-interface.tsx:44-48 | one record per listed key, in order, each reporting the chosen answer and its correctness |
| QuizInterface.BuildSubmission | client/src/components/quiz-interface.tsx:38-49 | the payload has the quiz id, the score, the full question count, and one record per answered question in ascending id order; unanswered questions are absent |
| QuizInterface.QuizSession.constructor | client/src/components/quiz-interface.tsx:25-28 | the session starts at question 0 with no answers, no time and results hidden |
| QuizInterface.QuizSession.Load | client/src/components/quiz-interface.tsx:71-74 | loading sets the countdown to timeLimit * 60 and captures the answers at that moment for the tick |
| QuizInterface.QuizSession.Tick | client/src/components/quiz-interface.tsx:76-84 | the time becomes NextTime of the old time; a tick at or below 1 second submits the captured answers; nothing else changes |
| QuizInterface.QuizSession.CalculateScore | client/src/components/quiz-interface.tsx:90-99 | the counting loop returns 0 without a quiz and Score of the questions otherwise, within 0..question count |
| QuizInterface.QuizSession.SelectAnswer | client/src/components/quiz-interface.tsx:101-103 | the chosen question's entry is set, overwriting any earlier one; every other entry and field is unchanged |
| QuizInterface.QuizSession.NextQuestion | client/src/components/quiz-interface.tsx:105-109 | moves forward only below the last question and keeps the index in range |
| QuizInterface.QuizSession.PreviousQuestion | client/src/components/quiz-interface.tsx:111-115 | moves back only above 0 and keeps the index in range |
| QuizInterface.QuizSession.FinishQuiz | client/src/components/quiz-interface.tsx:117-119 | submits the current answers and changes nothing else |
| QuizInterface.QuizSession.SubmitSucceeded | client/src/components/quiz-interface.tsx:54-55 | a successful submission shows the results |
| QuizInterface.QuizSession.HandleClose | client/src/components/quiz-interface.tsx:127-132 | closing calls onClose once, resets the index to 0, empties the answers and hides the results; the countdown is untouched |
| QuizInterface.QuizSession.ResultPercentage | client/src/components/quiz-interface.tsx:153-154 | the shown percentage lies in 0..100 and is 0 with no answers |
| Schema.UserFromInsert | server/storage.ts:212-223 | a stored user is the spread insert record with the fresh id, the hashed password and the time: the role is the one given, possibly none, and the insert shape is recovered |
| Schema.UserInsertRoundTrip | shared/schema.ts:90-93 | a user rebuilt from its insert shape, id, password and time is the same user |
| Schema.QuizFromInsert | shared/schema.ts:95-98 | a stored quiz is its insert shape plus id and creation time |
| Schema.QuizResultFromInsert | shared/schema.ts:100-103 | a stored result is its insert shape plus id and completion time |
| Schema.LessonFromInsert | server/storage.ts:257-262 | a stored lesson is the spread insert record with the fresh id and time: the status is the one given, possibly none, and the insert shape is recovered |
| Schema.MergeLesson | server/storage.ts:264-271 | each of the thirteen fields of the merged lesson is the update's value when present, else the old one; the empty update changes nothing |
| Schema.MergeLessonIdempotent | server/storage.ts:264-271 | applying the same update twice equals applying it once |
| Schema.ResourceFromInsert | server/storage.ts:277-282 | a stored resource is the spread insert record with the fresh id and time: isPremium is the one given, possibly none, and the insert shape is recovered |
| Schema.ForumPostFromInsert | shared/schema.ts:68-76 | a stored forum post always has 0 replies; its insert shape omits id, time and replies |
| Schema.ContactMessageFromInsert | shared/schema.ts:78-87 | a stored contact message always has status "new"; its insert shape omits id, time and status |
| Schema.Required | shared/schema.ts:90-125 | a field reports an issue iff it is missing |
| Schema.ParseLogin | shared/schema.ts:128-131 | login data parses iff an e-mail in valid format and a non-empty password are present; an empty password is reported as required |
| Schema.ParseRegister | shared/schema.ts:133-138 | registration parses iff every field is present and password equals confirmPassword; a mismatch is reported on confirmPassword |
| Schema.ParseInsertQuizResult | shared/schema.ts:100-103 | a quiz result body parses iff its required fields are present, into exactly those fields |
| Schema.ParseDate | shared/schema.ts:47 | a timestamp field accepts only a date object; a missing one is "Required" and a string is "Expected date, received string" |
| Schema.ParseInsertLesson | shared/schema.ts:105-108 | a lesson body parses iff its required fields are present and scheduledAt is a date object, into exactly those fields; a scheduledAt string is reported on scheduledAt |
| Seed.SeedTeacher | server/storage.ts:76-88 | the seeded user is the teacher account with the given id |
| Seed.SeedQuizzes | server/storage.ts:91-155 | three quizzes with the given distinct ids, each with questions and a positive time limit, every correct answer a valid option index and question ids distinct |
| Seed.SeedResources | server/storage.ts:158-197 | three resources with the given ids; each names isPremium, and only the second is premium |
| Seed.SetEachQuiz | server/storage.ts:155 | the forEach stores every seeded quiz under its own id, after the existing entries |
| Seed.SetEachResource | server/storage.ts:197 | the forEach stores every seeded resource under its own id, after the existing entries |
| OrderedMaps.SetFreshValues | server/storage.ts:212-223 | setting a new key appends its value to the map's values in insertion order |
| OrderedMaps.SetExistingValues | server/storage.ts:264-271 | setting an existing key replaces its value in place and keeps the order |
| Storage.MemStorage.constructor | server/storage.ts:62-72 | a fresh store holds the seeded teacher, quizzes and resources and nothing else |
| Storage.MemStorage.GetUser | server/storage.ts:200-202 | returns the user stored under the id, or nothing when there is none |
| Storage.MemStorage.GetUserByEmail | server/storage.ts:204-206 | returns a stored user with that e-mail, or nothing iff no stored user has it |
| Storage.MemStorage.GetUserByUsername | server/storage.ts:208-210 | returns a stored user with that username, or nothing iff no stored user has it |
| Storage.MemStorage.CreateUser | server/storage.ts:212-223 | adds exactly one user, the spread insert record with no role default, under the fresh id, appended, and changes no other table |
| Storage.MemStorage.GetQuizzes | server/storage.ts:225-227 | returns every stored quiz, in insertion order |
| Storage.MemStorage.GetQuiz | server/storage.ts:229-231 | returns the quiz stored under the id, or nothing |
| Storage.MemStorage.CreateQuiz | server/storage.ts:233-238 | adds exactly one quiz under the fresh id and changes no other table |
| Storage.MemStorage.GetQuizResults | server/storage.ts:240-242 | returns exactly the stored results of that user |
| Storage.MemStorage.CreateQuizResult | server/storage.ts:244-249 | adds exactly one result under the fresh id; all earlier results are unchanged |
| Storage.MemStorage.GetLessons | server/storage.ts:251-255 | returns exactly the lessons where the user is the student or the teacher |
| Storage.MemStorage.CreateLesson | server/storage.ts:257-262 | adds exactly one lesson, the spread insert record with no status default, under the fresh id and changes no other table |
| Storage.MemStorage.UpdateLesson | server/storage.ts:264-271 | an unknown id returns nothing and changes nothing; otherwise the merged lesson is stored under the same id and returned |
| Storage.MemStorage.GetResources | server/storage.ts:273-275 | returns every stored resource |
| Storage.MemStorage.CreateResource | server/storage.ts:277-282 | adds exactly one resource, the spread insert record with no isPremium default, and changes no other table |
| Storage.MemStorage.GetForumPosts | server/storage.ts:284-286 | returns every stored forum post |
| Storage.MemStorage.CreateForumPost | server/storage.ts:288-293 | adds one forum post with 0 replies and changes no other table |
| Storage.MemStorage.CreateContactMessage | server/storage.ts:295-300 | adds one contact message with status "new" and changes no other table |
| Routes.WithoutPassword | server/routes.ts:60-61 | the response user keeps id, username and e-mail, has no password, and only the password is lost |
| Routes.WithoutPasswordForgetsPassword | server/routes.ts:83-84 | the stripped user does not depend on the password |
| Routes.ExtractToken | server/routes.ts:19 | the token is the second space-separated word of the header, non-empty and without spaces; a missing header gives none |
| Routes.BearerToken | server/routes.ts:19 | "Bearer " followed by a token without spaces yields that token |
| Routes.OneWordHeader | server/routes.ts:19 | a header with no space yields no token |
| Routes.AuthenticateToken | server/routes.ts:17-36 | no token gives 401; a token failing verification gives 403; a verified token whose user is missing gives 401; only a stored user is attached |
| Routes.Me | server/routes.ts:90-93 | a rejected request gets the authentication response; otherwise the user is returned without the password |
| Routes.Register | server/routes.ts:40-65 | a parse failure gives 400; a known e-mail gives 400 before the username is checked; a taken username gives 400; only then one user is created, with the role the body gave or none; success returns the user without password and the signed token |
| Routes.Login | server/routes.ts:67-88 | success iff the e-mail is known and the password matches, returning the user without password; every 401 is "Invalid credentials" |
| Routes.LoginFailuresAlike | server/routes.ts:71-79 | an unknown e-mail and a wrong password get the identical 401 response |
| Routes.GetQuizRoute | server/routes.ts:105-115 | 200 with the quiz iff it is stored, else 404 "Quiz not found" |
| Routes.PostQuizResult | server/routes.ts:117-129 | a rejected request changes nothing; otherwise the result is stored with the caller's id as userId, or 400 with nothing stored |
| Routes.QuizResultOwnerOverridden | server/routes.ts:119-122 | whatever userId the body carries, the parsed result's userId is the caller's |
| Routes.PostLesson | server/routes.ts:150-162 | a rejected request changes nothing; a body that fails the lesson parse, a scheduledAt string included, gives 400 with nothing stored; otherwise the parsed lesson is stored as given, with the caller as student |
| Routes.LessonStudentOverridden | server/routes.ts:152-155 | whatever studentId the body carries, the parsed lesson's studentId is the caller's |
| Auth.Deliveries | client/src/lib/auth.ts:50-52 | notifying calls each listener once, in order, with the current state |
| Auth.RemoveFirst | client/src/lib/auth.ts:42-47 | removes one occurrence of the listener when present and is a no-op otherwise |
| Auth.RemoveFirstSplit | client/src/lib/auth.ts:43-45 | the removed listener is the first occurrence; the listeners before and after keep their order |
| Auth.RemoveFirstAt | client/src/lib/auth.ts:43-45 | removing at the first index of the listener leaves the others in order |
| Auth.SubscribeUnsubscribe | client/src/lib/auth.ts:39-48 | unsubscribing a listener just subscribed restores the old list |
| Auth.AuthManager.constructor | client/src/lib/auth.ts:16-33 | a stored token and user that parse restore the session; otherwise the session is signed out, and a failed parse removes both keys |
| Auth.AuthManager.Subscribe | client/src/lib/auth.ts:39-40 | appends the listener and changes nothing else |
| Auth.AuthManager.Unsubscribe | client/src/lib/auth.ts:42-47 | the listener list becomes RemoveFirst of the old one |
| Auth.AuthManager.Notify | client/src/lib/auth.ts:50-52 | delivers the state to every listener in order |
| Auth.AuthManager.Login | client/src/lib/auth.ts:54-59 | sets user and token, writes both keys, notifies every listener once with the new state |
| Auth.AuthManager.Logout | client/src/lib/auth.ts:61-66 | clears user and token, removes both keys, notifies; afterwards no headers and no role |
| Auth.AuthManager.GetAuthHeaders | client/src/lib/auth.ts:68-76 | empty iff the token is missing or empty; otherwise exactly Authorization = "Bearer " + token |
| Auth.AuthManager.IsAuthenticated | client/src/lib/auth.ts:78-80 | true iff the token is non-empty and there is a user |
| Auth.AuthManager.IsTeacher | client/src/lib/auth.ts:82-84 | a teacher needs a user |
| Auth.AuthManager.IsStudent | client/src/lib/auth.ts:86-88 | a student needs a user and is never a teacher |
| Auth.AuthManager.HeaderCarriesToken | client/src/lib/auth.ts:68-76 | the server's token extraction recovers the client's token from the header the client sends |
| Dashboard.CountOrZero | client/src/pages/dashboard.tsx:58-59 | a count is the number of items, or 0 when the data is missing |
| Dashboard.PercentSumBounds | client/src/pages/dashboard.tsx:60-62 | the summed percentages lie between 0 and 100 per result |
| Dashboard.AverageScore | client/src/pages/dashboard.tsx:60-62 | 0 without results, otherwise the rounded mean percentage |
| Dashboard.AverageScoreBounds | client/src/pages/dashboard.tsx:60-62 | the average lies in 0..100 when every score is within its total |
| Dashboard.AverageOfOne | client/src/pages/dashboard.tsx:60-62 | one result averages to its own rounded percentage |
| Dashboard.OverallProgress | client/src/pages/dashboard.tsx:63 | 0 without quizzes, otherwise the rounded percentage of completed over total |
| Dashboard.ProgressNotCapped | client/src/pages/dashboard.tsx:63 | progress is not capped: one quiz taken twice out of two gives 200 |
| Dashboard.ProgressBounds | client/src/pages/dashboard.tsx:63 | progress lies in 0..100 when completed does not exceed total |
| Dashboard.UpcomingLessons | client/src/pages/dashboard.tsx:65-67 | exactly the lessons after now with status "scheduled": every listed lesson is a fetched one and upcoming, and every fetched upcoming lesson is listed; none while loading |
| Dashboard.UpcomingKeepsOrder | client/src/pages/dashboard.tsx:65-67 | the filter distributes over concatenation, so order is kept |
| Dashboard.QuizActivityOf | client/src/pages/dashboard.tsx:70-76 | a result's activity is a quiz activity at its completion time |
| Dashboard.LessonActivityOf | client/src/pages/dashboard.tsx:77-83 | a lesson's activity carries its title and scheduled time |
| Dashboard.InsertByTime | client/src/pages/dashboard.tsx:84 | inserting keeps every element and adds exactly one |
| Dashboard.InsertKeepsNewestFirst | client/src/pages/dashboard.tsx:84 | inserting into a newest-first list keeps it newest first |
| Dashboard.SortNewestFirst | client/src/pages/dashboard.tsx:84 | the sort is a permutation ordered newest first |
| Dashboard.RecentQuizPart | client/src/pages/dashboard.tsx:70-76 | one activity per result among the last 3, in order, and none without results |
| Dashboard.RecentLessonPart | client/src/pages/dashboard.tsx:77-83 | one activity per lesson among the last 2, in order, and none without lessons |
| Dashboard.ActivityCandidates | client/src/pages/dashboard.tsx:69-83 | at most 5 candidates, the quiz part first; an activity is a candidate iff it is in the quiz part or the lesson part |
| Dashboard.RecentActivity | client/src/pages/dashboard.tsx:69-84 | at most 5 items, newest first, a permutation of the candidates |
| Dashboard.RecentActivitySources | client/src/pages/dashboard.tsx:69-84 | every recent quiz activity comes from one of the last 3 results and every lesson activity from one of the last 2 lessons |
| Dashboard.RecentActivityListsAll | client/src/pages/dashboard.tsx:69-84 | conversely, the activity of each of the last 3 results and of each of the last 2 lessons is listed |
| Dashboard.ResultBadge | client/src/pages/dashboard.tsx:414-420 | success iff the ratio is at least 0.8, warning iff in [0.6, 0.8), destructive iff below 0.6 |
| Dashboard.AverageLabel | client/src/pages/dashboard.tsx:261 | "Excellent!" iff at least 80, "Good progress" iff in [60, 80), "Keep practicing" iff below 60 |
| Dashboard.BadgeAndLabelDisagree | client/src/pages/dashboard.tsx:261 | the label rounds and the badge does not: 159 of 200 rounds to 80 and "Excellent!", yet its badge is a warning |
| Dashboard.BadgeMonotone | client/src/pages/dashboard.tsx:414-420 | a higher ratio never gets a worse badge |
| Dashboard.DifficultyColor | client/src/pages/dashboard.tsx:86-93 | each difficulty gets its own colour and anything else the muted default |
| Dashboard.DifficultyColorsDistinct | client/src/pages/dashboard.tsx:86-93 | distinct difficulties never share a colour |
| Booking.Hour24 | client/src/components/booking-modal.tsx:93-95 | PM adds 12 unless the hour is 12, 12 AM becomes 0, and every other hour is kept |
| Booking.To12Hour | client/src/components/booking-modal.tsx:41-48 | a 24-hour value has a 12-hour form with hour 1..12 and AM or PM |
| Booking.Hour24Bijective | client/src/components/booking-modal.tsx:93-95 | the conversion is a bijection from 12-hour times onto 0..23, with To12Hour as its inverse |
| Booking.SlotClock | client/src/components/booking-modal.tsx:91-98 | a slot parses only when its hour part parses |
| Booking.ClockOf | client/src/components/booking-modal.tsx:92-98 | a clock exists iff the hour and minute parse; minutes default to "0" when absent or empty |
| Booking.SlotPieces | client/src/components/booking-modal.tsx:91-92 | "h:m p" splits on the space into "h:m" and p, and "h:m" on the colon into h and m |
| Booking.SlotClockOf | client/src/components/booking-modal.tsx:91-98 | a slot "h:m p" gives the converted hour of h under p and the minute m |
| Booking.NineAM | client/src/components/booking-modal.tsx:42 | "9:00 AM" is 9:00 |
| Booking.TenThirtyAM | client/src/components/booking-modal.tsx:43 | "10:30 AM" is 10:30 |
| Booking.TwoPM | client/src/components/booking-modal.tsx:44 | "2:00 PM" is 14:00 |
| Booking.ThreeThirtyPM | client/src/components/booking-modal.tsx:45 | "3:30 PM" is 15:30 |
| Booking.FivePM | client/src/components/booking-modal.tsx:46 | "5:00 PM" is 17:00 |
| Booking.SevenPM | client/src/components/booking-modal.tsx:47 | "7:00 PM" is 19:00 |
| Booking.TimeSlotsValid | client/src/components/booking-modal.tsx:41-48 | every offered slot converts to an hour in 0..23 and a minute of 0 or 30 |
| Booking.BookingRequest | client/src/components/booking-modal.tsx:85-104 | a missing date or time fails with "Please select date and time" before anything else; success iff the slot parses; the body has the placeholder teacher, every field of the form (title, description, type, focus area, duration, notes, price) and the converted time as its ISO string |
| Booking.OfferedSlotBooks | client/src/components/booking-modal.tsx:41-48 | with a date, every offered slot yields a request |
| Booking.PriceFor | client/src/components/booking-modal.tsx:135-136 | private 45, group 25, intensive 70, and 45 for any type not listed |
| Booking.ListedPrices | client/src/components/booking-modal.tsx:50-54 | each listed type shows its own price |
| Booking.ConfirmDisabled | client/src/components/booking-modal.tsx:304 | confirm is enabled iff nothing is pending and both date and time are chosen |
| Booking.EnabledPassesGuard | client/src/components/booking-modal.tsx:86-88 | an enabled confirm never meets the missing date or time error |
| Booking.BookingDialog.constructor | client/src/components/booking-modal.tsx:73-81 | the dialog starts with default values and nothing selected |
| Booking.BookingDialog.SelectDate | client/src/components/booking-modal.tsx:163 | sets only the date |
| Booking.BookingDialog.SelectTime | client/src/components/booking-modal.tsx:180 | sets only the time |
| Booking.BookingDialog.EditForm | client/src/components/booking-modal.tsx:73-81 | sets only the form values |
| Booking.BookingDialog.Confirm | client/src/components/booking-modal.tsx:85-104 | the step-by-step conversion with a reassigned hour returns exactly BookingRequest of the dialog's state |
| Booking.BookingDialog.Price | client/src/components/booking-modal.tsx:135-136 | the shown price is always positive |
| Booking.BookingDialog.HandleClose | client/src/components/booking-modal.tsx:128-133 | calls onClose once, resets the form and clears date and time |
| Booking.BookingDialog.BookingSucceeded | client/src/components/booking-modal.tsx:109-118 | success closes, resets the form and clears date and time |
| Booking.BookingDialog.ClearedDisablesConfirm | client/src/components/booking-modal.tsx:304 | after a reset confirm is disabled |
| ForumPost.SubmitDecision | client/src/components/forum-post-modal.tsx:59-81 | not logged in is refused first; then missing information iff the trimmed title or content is empty or no category; otherwise the post is sent with the category unchanged |
| ForumPost.SentPostIsTrimmed | client/src/components/forum-post-modal.tsx:80 | a sent title and content are non-empty, have no white space at either end, are what was typed minus outer white space, and resubmitting them sends the same post |
| ForumPost.PaddingIgnored | client/src/components/forum-post-modal.tsx:71-80 | white space around the fields changes no decision and no sent post |
| ForumPost.ForumPostDialog.constructor | client/src/components/forum-post-modal.tsx:30-32 | the dialog starts with empty fields |
| ForumPost.ForumPostDialog.Edit | client/src/components/forum-post-modal.tsx:102-131 | sets the three fields only |
| ForumPost.ForumPostDialog.HandleSubmit | client/src/components/forum-post-modal.tsx:59-81 | shows the login or missing-field toast, or hands exactly the decided post to the mutation; the fields are kept |
| ForumPost.ForumPostDialog.HandleClose | client/src/components/forum-post-modal.tsx:83-88 | clears the three fields, then calls onClose once |
| ForumPost.ForumPostDialog.PostCreated | client/src/components/forum-post-modal.tsx:42-48 | success shows its toast and goes through handleClose |
| ForumPost.ForumPostDialog.PostFailed | client/src/components/forum-post-modal.tsx:50-56 | failure shows the error's message and keeps the fields |
| ForumPost.ForumPostDialog.ClearedSendsNothing | client/src/components/forum-post-modal.tsx:71-78 | after a close a submit sends nothing |
| Text.Trim | client/src/components/forum-post-modal.tsx:71 | a trimmed string is no longer and has no white space at either end |
| Text.TrimIsSlice | client/src/components/forum-post-modal.tsx:71 | a trimmed string is a slice with only white space before and after it |
| Text.TrimEmptyIff | client/src/components/forum-post-modal.tsx:71 | trimming gives the empty string iff the input is all white space |
| Text.TrimIdempotent | client/src/components/forum-post-modal.tsx:80 | trimming twice equals trimming once |
| Text.TrimUnique | client/src/components/forum-post-modal.tsx:80 | any slice framed by white space with non-white ends is the trimmed string |
| Text.TrimPadded | client/src/components/forum-post-modal.tsx:71-80 | padding with white space does not change the trimmed string |
| Text.Split | client/src/components/booking-modal.tsx:91-92 | splitting gives at least one piece and no piece holds the separator |
| Text.JoinSplit | client/src/components/booking-modal.tsx:91-92 | joining the pieces with the separator gives the string back |
| Text.SplitPair | client/src/components/booking-modal.tsx:91-92 | two separator-free parts joined by the separator split back into those two parts |
| Text.ParseIntOfDigits | client/src/components/booking-modal.tsx:93 | parseInt of a digit string followed by a non-digit is its value |
| Text.NatToStringValue | client/src/components/quiz-interface.tsx:124 | the decimal string of n denotes n |
| Text.PadStart | client/src/components/quiz-interface.tsx:124 | padding gives width characters when shorter and otherwise keeps the string, prefixing only the pad character |
| Text.LeadingZerosValue | client/src/components/quiz-interface.tsx:124 | leading zeros do not change the value of a digit string |
| JsMath.Round | client/src/pages/dashboard.tsx:61 | Math.round returns the integer within half of the argument, rounding halves up |
| JsMath.RoundMonotone | client/src/pages/dashboard.tsx:61 | rounding is monotone |
| JsMath.Percent | client/src/components/quiz-interface.tsx:154 | the percentage is within half of 100 * score / total |
| JsMath.PercentBounds | client/src/components/quiz-interface.tsx:154 | a score within its total gives a percentage in 0..100 |
| Findings.BookedBody | client/src/components/booking-modal.tsx:85-104 | the body the lessons route parses for a booked slot has the caller as student, the placeholder teacher, no status, every required field, and the time as a string |
| Findings.BookingRejectedAsWritten | server/routes.ts:150-162 | as written, every booking of an offered slot fails the lesson parse with "Expected date, received string" on scheduledAt, so the route answers 400 |
| Findings.ParseInsertLessonCoerced | shared/schema.ts:105-108 | with scheduledAt coerced to a date, a lesson body parses iff its required fields are present, a string time included, into exactly those fields |
| Findings.BookingAcceptedCoerced | client/src/components/booking-modal.tsx:85-104 | with the coercion, every booking of an offered slot parses, with the caller as student, the placeholder teacher, the slot's time and no status |
| Findings.BookedInsert | server/routes.ts:150-162 | the insert record of an accepted booking has the caller as student, the placeholder teacher and no status |
| Findings.BookedLessonHiddenAsWritten | server/storage.ts:257-262 | as written, the lesson createLesson stores for a booking has no status and is never upcoming on the dashboard |
| Findings.LessonWithStatusDefault | shared/schema.ts:49 | the stored lesson with the default applied has the status given or "scheduled", and is otherwise the spread record |
| Findings.BookedLessonUpcoming | shared/schema.ts:49 | with the status default applied, a booked lesson belongs to its student, has the slot's time, and is upcoming exactly while that time lies ahead |
| Findings.RoleMissingAsWritten | server/storage.ts:212-223 | as written, registering without a role stores a user with no role, who is neither student nor teacher |
| Findings.UserWithRoleDefault | shared/schema.ts:13 | the stored user with the default applied has the role given or "student", and is otherwise the spread record |
| Findings.RegisteredWithoutRoleIsStudent | shared/schema.ts:13 | with the role default applied, such a user is a student |

## Left out

- Page rendering, styling, routing, the navigation bar, the home, support, login and quiz pages, and the auth modal: they decide nothing.
- React hooks, effect scheduling and react-query: each handler is a method call, and a mutation is recorded in a sequence of submissions or sent posts.
- The wall clock: `setInterval` becomes an explicit `Tick` call and `Date.now` an integer parameter.
- Dates: `Date.setHours` and `toISOString` become a function parameter, and the calendar's disabled-date rule is not modelled.
- Floating point: percentages are computed exactly over reals with round-half-up, and a result with zero questions is excluded.
- Foreign libraries: bcrypt, jwt, `randomUUID`, `JSON.stringify` and `JSON.parse` are parameters, and so is zod's e-mail format check.
- The browser's `localStorage` is an abstract map from keys to strings.
- Express request and response objects are modelled as bodies, headers and `Response` values.
- The catch-all 400 and 500 responses for exceptions thrown by storage are not modelled, because the in-memory store throws none.
- The read-only routes that only list stored records are not modelled: all quizzes, the caller's results and lessons, resources and forum posts.
- The contact route (POST /api/contact, server/routes.ts:185-193) is not modelled. No route creates a resource or a forum post.
- The forum post dialog posts to /api/forum, which has only a GET handler (server/routes.ts:175). The request is recorded as sent, and ForumPost.ForumPostDialog.PostCreated models the dialog's own success handler, not a server reply.
- Toasts are recorded only in the forum post dialog. The quiz and booking toasts are not modelled.
- The booking form's field validation by its resolver is not modelled.
- seedData is asynchronous in the source; it is modelled as completed inside the constructor.
- Schema.ParseInsertLesson, Schema.ParseInsertQuizResult, Schema.ParseRegister, Schema.ParseLogin: a body field is either missing or of its declared type, so zod's type errors such as "Expected number, received string" cannot arise; only missing fields, the password confirmation and a string where a date is expected are reported.
- Schema.ParseInsertLesson: assumes that drizzle-zod turns the timestamp column scheduled_at into a date-object check, which a JSON string fails. drizzle-zod is not part of this model; Routes.PostLesson and the first finding rest on this mapping.
- Schema.ResourceFromInsert: the missing isPremium default is not recorded as a finding, because no route creates a resource.
- Text.PadStart: a `char` is a Unicode scalar value, while JavaScript counts UTF-16 code units. Lengths and `padStart` differ only for characters above U+FFFF, which the modelled strings do not need.
- QuizInterface.QuizSession.Tick: submits the answers captured when the quiz was loaded, because the timer's closure does not see later answers. Which answers the source actually sends depends on React's closure capture and is not claimed further.
- QuizInterface.QuizSession.FinishQuiz: submission is not exactly-once. The source has no guard against a second finish or a later tick, and the model asserts none.
- Dashboard.SortNewestFirst: proves a newest-first permutation but not the stability of the source's sort on equal times.

## Findings

| source | as written | input that shows it | evidently intended | confidence | as-written member | corrected member |
|---|---|---|---|---|---|---|
| server/routes.ts:150-162 | the lessons route parses the body with the lesson insert schema, whose scheduledAt comes from a timestamp column (shared/schema.ts:47, 105-108) and accepts only a date object, while the dialog sends scheduledAt.toISOString() (client/src/components/booking-modal.tsx:103) | any booking of an offered slot from the dialog; the parse reports "Expected date, received string" on scheduledAt and the route answers 400 | the ISO string is coerced to a date and the booking is stored | not executed; rests on drizzle-zod mapping a timestamp column to a date-object check | Findings.BookingRejectedAsWritten | Findings.BookingAcceptedCoerced |
| server/storage.ts:257-262 | createLesson stores the spread insert record, so a lesson sent without a status keeps none, although the column default is "scheduled" (shared/schema.ts:49) | a booking from the dialog for any future slot, once its time is accepted as in the first row; the dialog sends no status, and the dashboard's filter on status "scheduled" never lists it | a new lesson without a status is stored as "scheduled" and shows up as upcoming | not executed | Findings.BookedLessonHiddenAsWritten | Findings.BookedLessonUpcoming |
| server/storage.ts:212-223 | createUser stores the spread insert record, so a registration without a role stores a user with no role, although the column default is "student" (shared/schema.ts:13) | a registration body with every required field, matching passwords and no role; the auth modal always sends "student", so only a direct request shows it | a user registered without a role is a student | not executed | Findings.RoleMissingAsWritten | Findings.RegisteredWithoutRoleIsStudent |
