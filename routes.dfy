/** The decision logic of the HTTP handlers: which status and body a request
    gets, and which change it makes to the repository. The token library is two
    function parameters, `sign` (the token issued for a user id) and `verify`
    (the user id a token carries, or `None` when verification throws); password
    checking is the parameter `compare`; the email format check is `isEmail`. */
module Routes {
  import opened Wrappers
  import opened Schema
  import opened OrderedMaps
  import opened Storage
  import Text

  /** A user as sent to the client: every field but the password. */
  datatype PublicUser = PublicUser(id: string, username: string, email: string,
                                   firstName: string, lastName: string, role: Option<string>,
                                   avatar: Option<string>, createdAt: Timestamp)

  /** The JSON bodies the handlers send. A failed schema parse is answered with
      the list of issues it found. */
  datatype Json =
    | Message(message: string)
    | UserAndToken(user: PublicUser, token: string)
    | UserOnly(user: PublicUser)
    | QuizRecord(quiz: Quiz)
    | ResultRecord(result: QuizResult)
    | LessonRecord(lesson: Lesson)
    | ValidationFailed(issues: seq<Issue>)

  datatype Response = Response(status: int, body: Json)

  const AccessTokenRequired: string := "Access token required"
  const UserNotFound: string := "User not found"
  const InvalidToken: string := "Invalid token"
  const EmailTaken: string := "User already exists with this email"
  const UsernameTaken: string := "Username already taken"
  const InvalidCredentials: string := "Invalid credentials"
  const QuizNotFound: string := "Quiz not found"

  /** `const { password, ...userWithoutPassword } = user`. */
  function WithoutPassword(u: User): (p: PublicUser)
    ensures p.id == u.id && p.username == u.username && p.email == u.email
    ensures WithPassword(p, u.password) == u
  {
    PublicUser(u.id, u.username, u.email, u.firstName, u.lastName, u.role, u.avatar, u.createdAt)
  }

  /** Puts a password back: the inverse of `WithoutPassword`. */
  function WithPassword(p: PublicUser, password: string): User {
    User(p.id, p.username, p.email, password, p.firstName, p.lastName, p.role, p.avatar, p.createdAt)
  }

  /** Two users that differ only in their password look the same to the client. */
  lemma WithoutPasswordForgetsPassword(u: User, password: string)
    ensures WithoutPassword(u.(password := password)) == WithoutPassword(u)
  {
  }

  // ------------------------------------------------------------ the token

  /** `authHeader && authHeader.split(' ')[1]`, where an empty result counts as
      no token: the second space-separated word of the header, if it is not empty. */
  function ExtractToken(header: Option<string>): (r: Option<string>)
    ensures r.Some? ==> r.value != [] && ' ' !in r.value
    ensures header.None? ==> r.None?
    ensures r.Some? ==> exists scheme :: ' ' !in scheme && |scheme| + 1 + |r.value| <= |header.value| &&
                          header.value[..|scheme| + 1 + |r.value|] == scheme + " " + r.value
  {
    match header
    case None => None
    case Some(h) =>
      var parts := Text.Split(h, ' ');
      if |parts| >= 2 && parts[1] != [] then
        SecondWordPrefix(h);
        Some(parts[1])
      else None
  }

  /** The first two words of a header and the space between them start the header. */
  lemma SecondWordPrefix(h: string)
    requires |Text.Split(h, ' ')| >= 2
    ensures var parts := Text.Split(h, ' ');
            |parts[0]| + 1 + |parts[1]| <= |h| &&
            h[..|parts[0]| + 1 + |parts[1]|] == parts[0] + " " + parts[1]
  {
    var parts := Text.Split(h, ' ');
    Text.JoinSplit(h, ' ');
    JoinPrefix(parts, ' ');
  }

  /** A joined list starts with its first two elements and the separator between them. */
  lemma JoinPrefix(parts: seq<string>, sep: char)
    requires |parts| >= 2
    ensures |parts[0]| + 1 + |parts[1]| <= |Text.Join(parts, sep)|
    ensures Text.Join(parts, sep)[..|parts[0]| + 1 + |parts[1]|] == parts[0] + [sep] + parts[1]
  {
    var rest := Text.Join(parts[1..], sep);
    assert Text.Join(parts, sep) == parts[0] + [sep] + rest;
    if |parts| > 2 {
      assert rest == parts[1] + [sep] + Text.Join(parts[2..], sep);
    }
  }

  /** A header `Bearer <t>` yields `t` for any non-empty `t` without spaces. */
  lemma BearerToken(t: string)
    requires t != [] && ' ' !in t
    ensures ExtractToken(Some("Bearer " + t)) == Some(t)
  {
    Text.SplitPair("Bearer", t, ' ');
    assert "Bearer " + t == "Bearer" + [' '] + t;
  }

  /** A header with no space in it carries no token. */
  lemma OneWordHeader(h: string)
    requires ' ' !in h
    ensures ExtractToken(Some(h)) == None
  {
  }

  // ------------------------------------------------------ authenticateToken

  /** The outcome of the authentication middleware: the request goes on with
      the stored user attached, or is answered at once. */
  datatype AuthOutcome = Authenticated(user: User) | Rejected(response: Response)

  /** `authenticateToken`: no token gives 401, a token that fails verification
      gives 403, a verified token whose user is not stored gives 401; only a
      stored user is ever attached. */
  function AuthenticateToken(store: MemStorage, header: Option<string>, verify: string -> Option<string>)
    : (r: AuthOutcome)
    reads store
    ensures ExtractToken(header).None? ==> r == Rejected(Response(401, Message(AccessTokenRequired)))
    ensures ExtractToken(header).Some? && verify(ExtractToken(header).value).None? ==>
              r == Rejected(Response(403, Message(InvalidToken)))
    ensures r.Authenticated? <==>
              ExtractToken(header).Some? && verify(ExtractToken(header).value).Some? &&
              verify(ExtractToken(header).value).value in store.users.entries
    ensures r.Authenticated? ==> r.user == store.users.entries[verify(ExtractToken(header).value).value]
    ensures r.Authenticated? && store.Valid() ==> r.user.id == verify(ExtractToken(header).value).value
    ensures r.Rejected? ==> r.response.status in {401, 403} && r.response.body.Message?
  {
    match ExtractToken(header)
    case None => Rejected(Response(401, Message(AccessTokenRequired)))
    case Some(token) =>
      match verify(token)
      case None => Rejected(Response(403, Message(InvalidToken)))
      case Some(userId) =>
        match store.GetUser(userId)
        case None => Rejected(Response(401, Message(UserNotFound)))
        case Some(user) => Authenticated(user)
  }

  /** GET /api/auth/me: the authenticated user without the password. */
  function Me(store: MemStorage, header: Option<string>, verify: string -> Option<string>): (r: Response)
    reads store
    ensures AuthenticateToken(store, header, verify).Rejected? ==>
              r == AuthenticateToken(store, header, verify).response
    ensures AuthenticateToken(store, header, verify).Authenticated? ==>
              r == Response(200, UserOnly(WithoutPassword(AuthenticateToken(store, header, verify).user)))
  {
    match AuthenticateToken(store, header, verify)
    case Rejected(response) => response
    case Authenticated(user) => Response(200, UserOnly(WithoutPassword(user)))
  }

  // ---------------------------------------------------------------- auth

  /** POST /api/auth/register. The body is parsed first; then an existing email
      is refused, checked before the username; only then is the user created,
      without `confirmPassword` and with the password hashed, and answered with
      a token and the user without the password. */
  method Register(store: MemStorage, body: RegisterBody, id: string, hash: string -> string,
                  sign: string -> string, now: Timestamp)
    returns (resp: Response)
    requires store.Valid() && id !in store.users.entries
    modifies store
    ensures store.Valid()
    ensures ParseRegister(body).Failure? ==>
              resp == Response(400, ValidationFailed(ParseRegister(body).error)) &&
              store.Snapshot() == old(store.Snapshot())
    ensures ParseRegister(body).Success? && old(store.GetUserByEmail(ParseRegister(body).value.user.email)).Some? ==>
              resp == Response(400, Message(EmailTaken)) && store.Snapshot() == old(store.Snapshot())
    ensures ParseRegister(body).Success? && old(store.GetUserByEmail(ParseRegister(body).value.user.email)).None? &&
            old(store.GetUserByUsername(ParseRegister(body).value.user.username)).Some? ==>
              resp == Response(400, Message(UsernameTaken)) && store.Snapshot() == old(store.Snapshot())
    ensures resp.status == 200 <==>
              ParseRegister(body).Success? &&
              old(store.GetUserByEmail(ParseRegister(body).value.user.email)).None? &&
              old(store.GetUserByUsername(ParseRegister(body).value.user.username)).None?
    ensures resp.status == 200 ==>
              var user := UserFromInsert(WithoutConfirmation(ParseRegister(body).value), id,
                                          hash(ParseRegister(body).value.user.password), now);
              && resp == Response(200, UserAndToken(WithoutPassword(user), sign(id)))
              && store.users.Values() == old(store.users.Values()) + [user]
              && store.Snapshot() == old(store.Snapshot()).(users := store.users)
  {
    var parsed := ParseRegister(body);
    if parsed.Failure? {
      return Response(400, ValidationFailed(parsed.error));
    }
    var userData := parsed.value;
    if store.GetUserByEmail(userData.user.email).Some? {
      return Response(400, Message(EmailTaken));
    }
    if store.GetUserByUsername(userData.user.username).Some? {
      return Response(400, Message(UsernameTaken));
    }
    var userToCreate := WithoutConfirmation(userData);
    var user := store.CreateUser(userToCreate, id, hash, now);
    var token := sign(user.id);
    resp := Response(200, UserAndToken(WithoutPassword(user), token));
  }

  /** POST /api/auth/login. A malformed body gives 400; an unknown email and a
      wrong password give the same 401, so a client cannot tell them apart; a
      match is answered with a token and the user without the password. */
  function Login(store: MemStorage, body: LoginBody, isEmail: string -> bool,
                 compare: (string, string) -> bool, sign: string -> string): (r: Response)
    reads store
    requires store.Valid()
    ensures ParseLogin(body, isEmail).Failure? ==>
              r == Response(400, ValidationFailed(ParseLogin(body, isEmail).error))
    ensures r.status == 401 ==> r == Response(401, Message(InvalidCredentials))
    ensures r.status == 200 <==>
              && ParseLogin(body, isEmail).Success?
              && store.GetUserByEmail(body.email.value).Some?
              && compare(body.password.value, store.GetUserByEmail(body.email.value).value.password)
    ensures r.status == 200 ==>
              var user := store.GetUserByEmail(body.email.value).value;
              r == Response(200, UserAndToken(WithoutPassword(user), sign(user.id))) &&
              user.email == body.email.value
    ensures r.status in {200, 400, 401}
  {
    match ParseLogin(body, isEmail)
    case Failure(issues) => Response(400, ValidationFailed(issues))
    case Success(data) =>
      match store.GetUserByEmail(data.email)
      case None => Response(401, Message(InvalidCredentials))
      case Some(user) =>
        if !compare(data.password, user.password) then Response(401, Message(InvalidCredentials))
        else Response(200, UserAndToken(WithoutPassword(user), sign(user.id)))
  }

  /** An unknown email and a wrong password are answered alike. */
  lemma LoginFailuresAlike(store: MemStorage, unknown: LoginBody, wrong: LoginBody,
                           isEmail: string -> bool, compare: (string, string) -> bool,
                           sign: string -> string)
    requires store.Valid()
    requires ParseLogin(unknown, isEmail).Success? && store.GetUserByEmail(unknown.email.value).None?
    requires ParseLogin(wrong, isEmail).Success? && store.GetUserByEmail(wrong.email.value).Some?
    requires !compare(wrong.password.value, store.GetUserByEmail(wrong.email.value).value.password)
    ensures Login(store, unknown, isEmail, compare, sign) == Login(store, wrong, isEmail, compare, sign)
    ensures Login(store, unknown, isEmail, compare, sign) == Response(401, Message(InvalidCredentials))
  {
  }

  // ------------------------------------------------------------- quizzes

  /** GET /api/quizzes/:id: the stored quiz, or 404. */
  function GetQuizRoute(store: MemStorage, id: string): (r: Response)
    reads store
    ensures r.status == 200 <==> id in store.quizzes.entries
    ensures r.status == 200 ==> r.body == QuizRecord(store.quizzes.entries[id])
    ensures r.status == 200 && store.Valid() ==> r.body.quiz.id == id
    ensures r.status != 200 ==> r == Response(404, Message(QuizNotFound))
  {
    match store.GetQuiz(id)
    case None => Response(404, Message(QuizNotFound))
    case Some(quiz) => Response(200, QuizRecord(quiz))
  }

  /** POST /api/quiz-results. After authentication the body's `userId` is
      replaced by the authenticated user's id before parsing, so a result is
      always stored for the caller. */
  method PostQuizResult(store: MemStorage, header: Option<string>, verify: string -> Option<string>,
                        body: QuizResultBody, id: string, now: Timestamp)
    returns (resp: Response)
    requires store.Valid() && id !in store.quizResults.entries
    modifies store
    ensures store.Valid()
    ensures old(AuthenticateToken(store, header, verify)).Rejected? ==>
              resp == old(AuthenticateToken(store, header, verify)).response &&
              store.Snapshot() == old(store.Snapshot())
    ensures resp.status != 200 ==> store.Snapshot() == old(store.Snapshot())
    ensures old(AuthenticateToken(store, header, verify)).Authenticated? ==>
              var user := old(AuthenticateToken(store, header, verify)).user;
              var parsed := ParseInsertQuizResult(body.(userId := Some(user.id)));
              && (parsed.Failure? ==> resp == Response(400, ValidationFailed(parsed.error)))
              && (parsed.Success? ==>
                    && resp == Response(200, ResultRecord(QuizResultFromInsert(parsed.value, id, now)))
                    && resp.body.result.userId == user.id
                    && store.quizResults.Values() ==
                         old(store.quizResults.Values()) + [QuizResultFromInsert(parsed.value, id, now)]
                    && store.Snapshot() == old(store.Snapshot()).(quizResults := store.quizResults))
  {
    var auth := AuthenticateToken(store, header, verify);
    if auth.Rejected? {
      return auth.response;
    }
    var parsed := ParseInsertQuizResult(body.(userId := Some(auth.user.id)));
    if parsed.Failure? {
      return Response(400, ValidationFailed(parsed.error));
    }
    var result := store.CreateQuizResult(parsed.value, id, now);
    resp := Response(200, ResultRecord(result));
  }

  /** Whatever `userId` the body carries, a parsed result belongs to the caller. */
  lemma QuizResultOwnerOverridden(body: QuizResultBody, callerId: string)
    ensures var parsed := ParseInsertQuizResult(body.(userId := Some(callerId)));
            parsed.Success? ==> parsed.value.userId == callerId
    ensures ParseInsertQuizResult(body.(userId := Some(callerId))).Success? <==>
              body.quizId.Some? && body.score.Some? && body.totalQuestions.Some? && body.answers.Some?
  {
  }

  // -------------------------------------------------------------- lessons

  /** POST /api/lessons. After authentication the body's `studentId` is
      replaced by the authenticated user's id before parsing. */
  method PostLesson(store: MemStorage, header: Option<string>, verify: string -> Option<string>,
                    body: LessonBody, id: string, now: Timestamp)
    returns (resp: Response)
    requires store.Valid() && id !in store.lessons.entries
    modifies store
    ensures store.Valid()
    ensures old(AuthenticateToken(store, header, verify)).Rejected? ==>
              resp == old(AuthenticateToken(store, header, verify)).response &&
              store.Snapshot() == old(store.Snapshot())
    ensures resp.status != 200 ==> store.Snapshot() == old(store.Snapshot())
    ensures old(AuthenticateToken(store, header, verify)).Authenticated? ==>
              var user := old(AuthenticateToken(store, header, verify)).user;
              var parsed := ParseInsertLesson(body.(studentId := Some(user.id)));
              && (parsed.Failure? ==> resp == Response(400, ValidationFailed(parsed.error)))
              && (parsed.Success? ==>
                    && resp == Response(200, LessonRecord(LessonFromInsert(parsed.value, id, now)))
                    && resp.body.lesson.studentId == user.id
                    && store.lessons.Values() ==
                         old(store.lessons.Values()) + [LessonFromInsert(parsed.value, id, now)]
                    && store.Snapshot() == old(store.Snapshot()).(lessons := store.lessons))
  {
    var auth := AuthenticateToken(store, header, verify);
    if auth.Rejected? {
      return auth.response;
    }
    var parsed := ParseInsertLesson(body.(studentId := Some(auth.user.id)));
    if parsed.Failure? {
      return Response(400, ValidationFailed(parsed.error));
    }
    var lesson := store.CreateLesson(parsed.value, id, now);
    resp := Response(200, LessonRecord(lesson));
  }

  /** Whatever `studentId` the body carries, a parsed lesson is booked for the caller. */
  lemma LessonStudentOverridden(body: LessonBody, callerId: string)
    ensures var parsed := ParseInsertLesson(body.(studentId := Some(callerId)));
            parsed.Success? ==> parsed.value.studentId == callerId
  {
  }
}
