/** The records of the application, the values their columns default to,
    the insert shapes (a record without its generated fields), and the two
    validation schemas of the authentication forms.

    Timestamps are milliseconds since the epoch. Questions and per-question
    answers, stored as JSON columns, are given their shape from the quiz
    component that reads and writes them. */
module Schema {
  import opened Wrappers

  type Timestamp = int

  const DefaultRole: string := "student"
  const DefaultLessonStatus: string := "scheduled"
  const DefaultIsPremium: bool := false
  const DefaultReplies: int := 0
  const DefaultContactStatus: string := "new"

  // ------------------------------------------------------------------ users

  datatype User = User(id: string, username: string, email: string, password: string,
                       firstName: string, lastName: string, role: Option<string>,
                       avatar: Option<string>, createdAt: Timestamp)

  /** A user without `id` and `createdAt`; `role` may be left out, since the
      column has a default. */
  datatype InsertUser = InsertUser(username: string, email: string, password: string,
                                   firstName: string, lastName: string,
                                   role: Option<string>, avatar: Option<string>)

  function UserToInsert(u: User): InsertUser {
    InsertUser(u.username, u.email, u.password, u.firstName, u.lastName, u.role, u.avatar)
  }

  /** The user `createUser` stores: the insert record spread, with the fresh
      id, the hashed password and the creation time. No column default is
      applied, so a missing role stays missing. */
  function UserFromInsert(ins: InsertUser, id: string, hashed: string, now: Timestamp): (u: User)
    ensures u.id == id && u.createdAt == now && u.password == hashed
    ensures u.role == ins.role
    ensures UserToInsert(u) == ins.(password := hashed)
  {
    User(id, ins.username, ins.email, hashed, ins.firstName, ins.lastName,
         ins.role, ins.avatar, now)
  }

  /** The insert shape omits exactly `id` and `createdAt`: with them a record is rebuilt whole. */
  lemma UserInsertRoundTrip(u: User)
    ensures UserFromInsert(UserToInsert(u), u.id, u.password, u.createdAt) == u
  {
  }

  // ---------------------------------------------------------------- quizzes

  datatype Question = Question(id: int, question: string, options: seq<string>,
                               correctAnswer: int, explanation: string)

  /** The correct answer names one of the options. */
  predicate WellFormedQuestion(q: Question) {
    0 <= q.correctAnswer < |q.options|
  }

  datatype Quiz = Quiz(id: string, title: string, description: string, difficulty: string,
                       category: string, questions: seq<Question>, timeLimit: int,
                       createdAt: Timestamp)

  datatype InsertQuiz = InsertQuiz(title: string, description: string, difficulty: string,
                                   category: string, questions: seq<Question>, timeLimit: int)

  function QuizToInsert(q: Quiz): InsertQuiz {
    InsertQuiz(q.title, q.description, q.difficulty, q.category, q.questions, q.timeLimit)
  }

  function QuizFromInsert(ins: InsertQuiz, id: string, now: Timestamp): (q: Quiz)
    ensures q.id == id && q.createdAt == now && QuizToInsert(q) == ins
  {
    Quiz(id, ins.title, ins.description, ins.difficulty, ins.category, ins.questions,
         ins.timeLimit, now)
  }

  // ----------------------------------------------------------- quiz results

  /** One answered question of an attempt. */
  datatype AnswerRecord = AnswerRecord(questionId: int, answer: int, correct: bool)

  datatype QuizResult = QuizResult(id: string, userId: string, quizId: string, score: int,
                                   totalQuestions: int, answers: seq<AnswerRecord>,
                                   completedAt: Timestamp)

  datatype InsertQuizResult = InsertQuizResult(userId: string, quizId: string, score: int,
                                               totalQuestions: int, answers: seq<AnswerRecord>)

  function QuizResultToInsert(r: QuizResult): InsertQuizResult {
    InsertQuizResult(r.userId, r.quizId, r.score, r.totalQuestions, r.answers)
  }

  function QuizResultFromInsert(ins: InsertQuizResult, id: string, now: Timestamp): (r: QuizResult)
    ensures r.id == id && r.completedAt == now && QuizResultToInsert(r) == ins
  {
    QuizResult(id, ins.userId, ins.quizId, ins.score, ins.totalQuestions, ins.answers, now)
  }

  // ---------------------------------------------------------------- lessons

  datatype Lesson = Lesson(id: string, studentId: string, teacherId: string, title: string,
                           description: Option<string>, lessonType: string, focusArea: string,
                           scheduledAt: Timestamp, duration: int, status: Option<string>,
                           notes: Option<string>, price: int, createdAt: Timestamp)

  /** A lesson without `id` and `createdAt`; `status` may be left to its default. */
  datatype InsertLesson = InsertLesson(studentId: string, teacherId: string, title: string,
                                       description: Option<string>, lessonType: string,
                                       focusArea: string, scheduledAt: Timestamp, duration: int,
                                       status: Option<string>, notes: Option<string>, price: int)

  function LessonToInsert(l: Lesson): InsertLesson {
    InsertLesson(l.studentId, l.teacherId, l.title, l.description, l.lessonType, l.focusArea,
                 l.scheduledAt, l.duration, l.status, l.notes, l.price)
  }

  /** The lesson `createLesson` stores: the insert record spread, with the
      fresh id and the creation time. No column default is applied, so a
      missing status stays missing. */
  function LessonFromInsert(ins: InsertLesson, id: string, now: Timestamp): (l: Lesson)
    ensures l.id == id && l.createdAt == now
    ensures l.status == ins.status
    ensures LessonToInsert(l) == ins
  {
    Lesson(id, ins.studentId, ins.teacherId, ins.title, ins.description, ins.lessonType,
           ins.focusArea, ins.scheduledAt, ins.duration, ins.status, ins.notes, ins.price, now)
  }

  /** A partial lesson: the fields an update overwrites. */
  datatype LessonUpdate = LessonUpdate(id: Option<string>, studentId: Option<string>,
                                       teacherId: Option<string>, title: Option<string>,
                                       description: Option<Option<string>>,
                                       lessonType: Option<string>, focusArea: Option<string>,
                                       scheduledAt: Option<Timestamp>, duration: Option<int>,
                                       status: Option<string>, notes: Option<Option<string>>,
                                       price: Option<int>, createdAt: Option<Timestamp>)

  /** `{ ...lesson, ...updates }`: every field the update names wins, the others are kept. */
  function MergeLesson(l: Lesson, u: LessonUpdate): (r: Lesson)
    ensures u == NoLessonUpdate() ==> r == l
    ensures r.id == u.id.GetOr(l.id)
    ensures r.studentId == u.studentId.GetOr(l.studentId)
    ensures r.teacherId == u.teacherId.GetOr(l.teacherId)
    ensures r.title == u.title.GetOr(l.title)
    ensures r.description == u.description.GetOr(l.description)
    ensures r.lessonType == u.lessonType.GetOr(l.lessonType)
    ensures r.focusArea == u.focusArea.GetOr(l.focusArea)
    ensures r.scheduledAt == u.scheduledAt.GetOr(l.scheduledAt)
    ensures r.duration == u.duration.GetOr(l.duration)
    ensures r.status == (if u.status.Some? then u.status else l.status)
    ensures r.notes == u.notes.GetOr(l.notes)
    ensures r.price == u.price.GetOr(l.price)
    ensures r.createdAt == u.createdAt.GetOr(l.createdAt)
  {
    Lesson(u.id.GetOr(l.id), u.studentId.GetOr(l.studentId), u.teacherId.GetOr(l.teacherId),
           u.title.GetOr(l.title), u.description.GetOr(l.description),
           u.lessonType.GetOr(l.lessonType), u.focusArea.GetOr(l.focusArea),
           u.scheduledAt.GetOr(l.scheduledAt), u.duration.GetOr(l.duration),
           if u.status.Some? then u.status else l.status, u.notes.GetOr(l.notes),
           u.price.GetOr(l.price), u.createdAt.GetOr(l.createdAt))
  }

  function NoLessonUpdate(): LessonUpdate {
    LessonUpdate(None, None, None, None, None, None, None, None, None, None, None, None, None)
  }

  /** Merging the same update twice is merging it once. */
  lemma MergeLessonIdempotent(l: Lesson, u: LessonUpdate)
    ensures MergeLesson(MergeLesson(l, u), u) == MergeLesson(l, u)
  {
  }

  // -------------------------------------------------------------- resources

  datatype Resource = Resource(id: string, title: string, description: string,
                               resourceType: string, category: string, url: string,
                               isPremium: Option<bool>, fileSize: Option<int>, duration: Option<int>,
                               createdAt: Timestamp)

  datatype InsertResource = InsertResource(title: string, description: string,
                                           resourceType: string, category: string, url: string,
                                           isPremium: Option<bool>, fileSize: Option<int>,
                                           duration: Option<int>)

  function ResourceToInsert(r: Resource): InsertResource {
    InsertResource(r.title, r.description, r.resourceType, r.category, r.url, r.isPremium,
                   r.fileSize, r.duration)
  }

  /** The resource `createResource` stores: the insert record spread, with
      the fresh id and the creation time; a missing `isPremium` stays missing. */
  function ResourceFromInsert(ins: InsertResource, id: string, now: Timestamp): (r: Resource)
    ensures r.id == id && r.createdAt == now
    ensures r.isPremium == ins.isPremium
    ensures ResourceToInsert(r) == ins
  {
    Resource(id, ins.title, ins.description, ins.resourceType, ins.category, ins.url,
             ins.isPremium, ins.fileSize, ins.duration, now)
  }

  // ------------------------------------------------------------ forum posts

  datatype ForumPost = ForumPost(id: string, userId: string, title: string, content: string,
                                 category: string, replies: int, createdAt: Timestamp)

  /** A post without `id`, `replies` and `createdAt`. */
  datatype InsertForumPost = InsertForumPost(userId: string, title: string, content: string,
                                             category: string)

  function ForumPostToInsert(p: ForumPost): InsertForumPost {
    InsertForumPost(p.userId, p.title, p.content, p.category)
  }

  /** A new post starts with no replies, whatever the caller sent. */
  function ForumPostFromInsert(ins: InsertForumPost, id: string, now: Timestamp): (p: ForumPost)
    ensures p.id == id && p.createdAt == now && p.replies == DefaultReplies
    ensures ForumPostToInsert(p) == ins
  {
    ForumPost(id, ins.userId, ins.title, ins.content, ins.category, DefaultReplies, now)
  }

  // ------------------------------------------------------- contact messages

  datatype ContactMessage = ContactMessage(id: string, firstName: string, lastName: string,
                                           email: string, subject: string, message: string,
                                           status: string, createdAt: Timestamp)

  /** A message without `id`, `status` and `createdAt`. */
  datatype InsertContactMessage = InsertContactMessage(firstName: string, lastName: string,
                                                       email: string, subject: string,
                                                       message: string)

  function ContactMessageToInsert(m: ContactMessage): InsertContactMessage {
    InsertContactMessage(m.firstName, m.lastName, m.email, m.subject, m.message)
  }

  /** A new message is always "new", whatever the caller sent. */
  function ContactMessageFromInsert(ins: InsertContactMessage, id: string, now: Timestamp): (m: ContactMessage)
    ensures m.id == id && m.createdAt == now && m.status == DefaultContactStatus
    ensures ContactMessageToInsert(m) == ins
  {
    ContactMessage(id, ins.firstName, ins.lastName, ins.email, ins.subject, ins.message,
                   DefaultContactStatus, now)
  }

  // ------------------------------------------------------------- validation

  /** One validation problem: the field it concerns and what is wrong. */
  datatype Issue = Issue(path: string, message: string)

  function Required<T>(field: string, v: Option<T>): (r: seq<Issue>)
    ensures r == [] <==> v.Some?
  {
    if v.None? then [Issue(field, "Required")] else []
  }

  /** A login request as sent; an absent field is `None`. */
  datatype LoginBody = LoginBody(email: Option<string>, password: Option<string>)

  datatype LoginData = LoginData(email: string, password: string)

  /** `loginSchema.parse`: the email must be well formed (`isEmail` stands for
      the library's format check) and the password non-empty; every problem
      is reported, the email's first. */
  function ParseLogin(b: LoginBody, isEmail: string -> bool): (r: Result<LoginData, seq<Issue>>)
    ensures r.Success? <==> b.email.Some? && isEmail(b.email.value) &&
                            b.password.Some? && |b.password.value| >= 1
    ensures r.Success? ==> r.value == LoginData(b.email.value, b.password.value)
    ensures b.password == Some("") ==> r.Failure? && Issue("password", "Password is required") in r.error
    ensures b.email.Some? && !isEmail(b.email.value) ==>
              r.Failure? && |r.error| > 0 && r.error[0] == Issue("email", "Invalid email address")
  {
    var emailIssues :=
      if b.email.None? then [Issue("email", "Required")]
      else if !isEmail(b.email.value) then [Issue("email", "Invalid email address")]
      else [];
    var passwordIssues :=
      if b.password.None? then [Issue("password", "Required")]
      else if |b.password.value| < 1 then [Issue("password", "Password is required")]
      else [];
    var issues := emailIssues + passwordIssues;
    if issues == [] then Success(LoginData(b.email.value, b.password.value))
    else
      assert passwordIssues != [] ==> issues[|emailIssues|] == passwordIssues[0];
      Failure(issues)
  }

  /** A registration request as sent; an absent field is `None`. */
  datatype RegisterBody = RegisterBody(username: Option<string>, email: Option<string>,
                                       password: Option<string>, firstName: Option<string>,
                                       lastName: Option<string>, role: Option<string>,
                                       avatar: Option<string>, confirmPassword: Option<string>)

  datatype RegisterData = RegisterData(user: InsertUser, confirmPassword: string)

  predicate RegisterFieldsPresent(b: RegisterBody) {
    b.username.Some? && b.email.Some? && b.password.Some? && b.firstName.Some? &&
    b.lastName.Some? && b.confirmPassword.Some?
  }

  /** `registerSchema.parse`: the insert-user fields plus `confirmPassword`
      must be present; only then is the refinement checked, which requires
      the two passwords to agree and reports a mismatch on `confirmPassword`.
      The email format is not checked here. */
  function ParseRegister(b: RegisterBody): (r: Result<RegisterData, seq<Issue>>)
    ensures r.Success? <==> RegisterFieldsPresent(b) && b.password == b.confirmPassword
    ensures r.Success? ==> r.value.user.password == r.value.confirmPassword
    ensures r.Success? ==> r.value.user == InsertUser(b.username.value, b.email.value,
              b.password.value, b.firstName.value, b.lastName.value, b.role, b.avatar)
    ensures RegisterFieldsPresent(b) && b.password != b.confirmPassword ==>
              r == Failure([Issue("confirmPassword", "Passwords don't match")])
    ensures !RegisterFieldsPresent(b) ==>
              r.Failure? && forall k :: 0 <= k < |r.error| ==> r.error[k].message == "Required"
  {
    var missing := Required("username", b.username) + Required("email", b.email) +
                   Required("password", b.password) + Required("firstName", b.firstName) +
                   Required("lastName", b.lastName) + Required("confirmPassword", b.confirmPassword);
    if missing != [] then Failure(missing)
    else if b.password != b.confirmPassword then
      Failure([Issue("confirmPassword", "Passwords don't match")])
    else
      Success(RegisterData(InsertUser(b.username.value, b.email.value, b.password.value,
                                      b.firstName.value, b.lastName.value, b.role, b.avatar),
                           b.confirmPassword.value))
  }

  /** `const { confirmPassword, ...userToCreate } = userData`. */
  function WithoutConfirmation(d: RegisterData): InsertUser {
    d.user
  }

  /** A quiz-result request as sent. */
  datatype QuizResultBody = QuizResultBody(userId: Option<string>, quizId: Option<string>,
                                           score: Option<int>, totalQuestions: Option<int>,
                                           answers: Option<seq<AnswerRecord>>)

  /** `insertQuizResultSchema.parse`: every field is required. */
  function ParseInsertQuizResult(b: QuizResultBody): (r: Result<InsertQuizResult, seq<Issue>>)
    ensures r.Success? <==> b.userId.Some? && b.quizId.Some? && b.score.Some? &&
                            b.totalQuestions.Some? && b.answers.Some?
    ensures r.Success? ==> r.value == InsertQuizResult(b.userId.value, b.quizId.value,
              b.score.value, b.totalQuestions.value, b.answers.value)
  {
    var missing := Required("userId", b.userId) + Required("quizId", b.quizId) +
                   Required("score", b.score) + Required("totalQuestions", b.totalQuestions) +
                   Required("answers", b.answers);
    if missing != [] then Failure(missing)
    else Success(InsertQuizResult(b.userId.value, b.quizId.value, b.score.value,
                                  b.totalQuestions.value, b.answers.value))
  }

  /** A point in time as a request carries it: a date object, or the
      ISO 8601 string of an instant, which is all a JSON body can hold. */
  datatype WireTime = DateObject(at: Timestamp) | DateString(at: Timestamp)

  const ExpectedDate: string := "Expected date, received string"

  /** The check of a timestamp column: only a date object passes. */
  function ParseDate(field: string, t: Option<WireTime>): (r: seq<Issue>)
    ensures r == [] <==> t.Some? && t.value.DateObject?
    ensures t.Some? && t.value.DateString? ==> r == [Issue(field, ExpectedDate)]
  {
    match t
    case None => [Issue(field, "Required")]
    case Some(DateObject(_)) => []
    case Some(DateString(_)) => [Issue(field, ExpectedDate)]
  }

  /** A lesson request as sent. */
  datatype LessonBody = LessonBody(studentId: Option<string>, teacherId: Option<string>,
                                   title: Option<string>, description: Option<string>,
                                   lessonType: Option<string>, focusArea: Option<string>,
                                   scheduledAt: Option<WireTime>, duration: Option<int>,
                                   status: Option<string>, notes: Option<string>,
                                   price: Option<int>)

  predicate LessonFieldsPresent(b: LessonBody) {
    b.studentId.Some? && b.teacherId.Some? && b.title.Some? && b.lessonType.Some? &&
    b.focusArea.Some? && b.duration.Some? && b.price.Some?
  }

  /** `insertLessonSchema.parse`: description, status and notes may be
      absent, and `scheduledAt`, a timestamp column, must be a date object. */
  function ParseInsertLesson(b: LessonBody): (r: Result<InsertLesson, seq<Issue>>)
    ensures r.Success? <==> LessonFieldsPresent(b) && b.scheduledAt.Some? && b.scheduledAt.value.DateObject?
    ensures r.Success? ==> r.value == InsertLesson(b.studentId.value, b.teacherId.value,
              b.title.value, b.description, b.lessonType.value, b.focusArea.value,
              b.scheduledAt.value.at, b.duration.value, b.status, b.notes, b.price.value)
    ensures b.scheduledAt.Some? && b.scheduledAt.value.DateString? ==>
              r.Failure? && Issue("scheduledAt", ExpectedDate) in r.error
  {
    var before := Required("studentId", b.studentId) + Required("teacherId", b.teacherId) +
                  Required("title", b.title) + Required("type", b.lessonType) +
                  Required("focusArea", b.focusArea);
    var missing := before + ParseDate("scheduledAt", b.scheduledAt) +
                   Required("duration", b.duration) + Required("price", b.price);
    if missing != [] then
      assert b.scheduledAt.Some? && b.scheduledAt.value.DateString? ==>
               missing[|before|] == Issue("scheduledAt", ExpectedDate);
      Failure(missing)
    else Success(InsertLesson(b.studentId.value, b.teacherId.value, b.title.value,
                              b.description, b.lessonType.value, b.focusArea.value,
                              b.scheduledAt.value.at, b.duration.value, b.status, b.notes,
                              b.price.value))
  }
}
