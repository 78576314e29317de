/** The in-memory repository: seven insertion-ordered maps keyed by id.
    Generated ids are parameters the caller guarantees fresh (they stand for
    `randomUUID()`); the clock is a parameter `now`; password hashing is the
    function parameter `hash`. */
module Storage {
  import opened Wrappers
  import opened Schema
  import opened OrderedMaps
  import Seqs
  import opened Seed
  import opened KeyedMaps

  /** The whole state of the repository at one moment. */
  datatype Tables = Tables(users: OMap<User>, quizzes: OMap<Quiz>,
                           quizResults: OMap<QuizResult>, lessons: OMap<Lesson>,
                           resources: OMap<Resource>, forumPosts: OMap<ForumPost>,
                           contactMessages: OMap<ContactMessage>)

  class MemStorage {
    var users: OMap<User>
    var quizzes: OMap<Quiz>
    var quizResults: OMap<QuizResult>
    var lessons: OMap<Lesson>
    var resources: OMap<Resource>
    var forumPosts: OMap<ForumPost>
    var contactMessages: OMap<ContactMessage>

    /** Every map is well formed, and each record sits under its own id. Lessons
        are the exception: an update may overwrite a lesson's `id` field while
        the lesson stays under its old key. */
    ghost predicate Valid()
      reads this
    {
      && users.Valid() && quizzes.Valid() && quizResults.Valid() && lessons.Valid()
      && resources.Valid() && forumPosts.Valid() && contactMessages.Valid()
      && UsersKeyed(users.entries) && QuizzesKeyed(quizzes.entries)
      && ResultsKeyed(quizResults.entries) && ResourcesKeyed(resources.entries)
      && PostsKeyed(forumPosts.entries) && MessagesKeyed(contactMessages.entries)
    }

    ghost function Snapshot(): Tables
      reads this
    {
      Tables(users, quizzes, quizResults, lessons, resources, forumPosts, contactMessages)
    }

    /** The constructor with `seedData`: the teacher, then the quizzes and resources in order. */
    constructor (ids: SeedIds, teacherHash: string, now: Timestamp)
      requires ValidSeedIds(ids)
      ensures Valid()
      ensures users.Values() == [SeedTeacher(ids.teacher, teacherHash, now)]
      ensures quizzes.Values() == SeedQuizzes(ids.quizzes, now)
      ensures resources.Values() == SeedResources(ids.resources, now)
      ensures quizResults.Values() == [] && lessons.Values() == []
      ensures forumPosts.Values() == [] && contactMessages.Values() == []
    {
      var teacher := SeedTeacher(ids.teacher, teacherHash, now);
      SetFreshValues(Empty(), teacher.id, teacher);
      users := Empty<User>().Set(teacher.id, teacher);
      var seededQuizzes := SetEachQuiz(Empty(), SeedQuizzes(ids.quizzes, now));
      var seededResources := SetEachResource(Empty(), SeedResources(ids.resources, now));
      quizzes, resources := seededQuizzes, seededResources;
      quizResults, lessons, forumPosts, contactMessages := Empty(), Empty(), Empty(), Empty();
    }

    // ---------------------------------------------------------------- users

    /** `getUser`: the user stored under `id`, which carries that id. */
    function GetUser(id: string): (r: Option<User>)
      reads this
      ensures r.Some? <==> id in users.entries
      ensures r.Some? ==> r.value == users.entries[id]
      ensures Valid() && r.Some? ==> r.value.id == id
    {
      users.Get(id)
    }

    /** `getUserByEmail`: the first stored user with this email, if any. */
    function GetUserByEmail(email: string): (r: Option<User>)
      reads this
      requires Valid()
      ensures r.None? <==> forall i :: 0 <= i < |users.Values()| ==> users.Values()[i].email != email
      ensures r.Some? ==> r.value.email == email && r.value in users.Values()
    {
      Seqs.Find(users.Values(), (u: User) => u.email == email)
    }

    /** `getUserByUsername`: the first stored user with this username, if any. */
    function GetUserByUsername(username: string): (r: Option<User>)
      reads this
      requires Valid()
      ensures r.None? <==> forall i :: 0 <= i < |users.Values()| ==> users.Values()[i].username != username
      ensures r.Some? ==> r.value.username == username && r.value in users.Values()
    {
      Seqs.Find(users.Values(), (u: User) => u.username == username)
    }

    /** `createUser`: stores the insert record spread under a fresh id, with the
        password hashed; a missing role is stored as missing. */
    method CreateUser(ins: InsertUser, id: string, hash: string -> string, now: Timestamp)
      returns (user: User)
      requires Valid() && id !in users.entries
      modifies this
      ensures Valid()
      ensures user == UserFromInsert(ins, id, hash(ins.password), now)
      ensures users == old(users).Set(id, user)
      ensures users.Values() == old(users.Values()) + [user]
      ensures Snapshot() == old(Snapshot()).(users := users)
    {
      user := UserFromInsert(ins, id, hash(ins.password), now);
      SetFreshValues(users, id, user);
      users := users.Set(id, user);
    }

    // -------------------------------------------------------------- quizzes

    /** `getQuizzes`: every stored quiz, in insertion order. */
    function GetQuizzes(): (r: seq<Quiz>)
      reads this
      requires Valid()
      ensures |r| == |quizzes.keys|
      ensures forall i :: 0 <= i < |r| ==> r[i] == quizzes.entries[quizzes.keys[i]]
      ensures forall id :: id in quizzes.entries ==> quizzes.entries[id] in r
    {
      quizzes.Values()
    }

    /** `getQuiz`: the quiz stored under `id`, or none. */
    function GetQuiz(id: string): (r: Option<Quiz>)
      reads this
      ensures r.Some? <==> id in quizzes.entries
      ensures r.Some? ==> r.value == quizzes.entries[id]
      ensures Valid() && r.Some? ==> r.value.id == id
    {
      quizzes.Get(id)
    }

    /** `createQuiz`. */
    method CreateQuiz(ins: InsertQuiz, id: string, now: Timestamp) returns (quiz: Quiz)
      requires Valid() && id !in quizzes.entries
      modifies this
      ensures Valid()
      ensures quiz == QuizFromInsert(ins, id, now)
      ensures quizzes == old(quizzes).Set(id, quiz)
      ensures quizzes.Values() == old(quizzes.Values()) + [quiz]
      ensures Snapshot() == old(Snapshot()).(quizzes := quizzes)
    {
      quiz := QuizFromInsert(ins, id, now);
      SetFreshValues(quizzes, id, quiz);
      quizzes := quizzes.Set(id, quiz);
    }

    // --------------------------------------------------------- quiz results

    /** `getQuizResults`: exactly the stored results of `userId`, in insertion order. */
    function GetQuizResults(userId: string): (r: seq<QuizResult>)
      reads this
      requires Valid()
      ensures forall i :: 0 <= i < |r| ==> r[i].userId == userId && r[i] in quizResults.Values()
      ensures forall i :: 0 <= i < |quizResults.Values()| && quizResults.Values()[i].userId == userId ==>
                quizResults.Values()[i] in r
    {
      Seqs.Filter(quizResults.Values(), (x: QuizResult) => x.userId == userId)
    }

    /** `createQuizResult`: one more result under a fresh id; history only grows. */
    method CreateQuizResult(ins: InsertQuizResult, id: string, now: Timestamp)
      returns (result: QuizResult)
      requires Valid() && id !in quizResults.entries
      modifies this
      ensures Valid()
      ensures result == QuizResultFromInsert(ins, id, now)
      ensures quizResults == old(quizResults).Set(id, result)
      ensures quizResults.Values() == old(quizResults.Values()) + [result]
      ensures forall k :: k in old(quizResults.entries) ==>
                k in quizResults.entries && quizResults.entries[k] == old(quizResults.entries[k])
      ensures Snapshot() == old(Snapshot()).(quizResults := quizResults)
    {
      result := QuizResultFromInsert(ins, id, now);
      SetFreshValues(quizResults, id, result);
      quizResults := quizResults.Set(id, result);
    }

    // -------------------------------------------------------------- lessons

    /** `getLessons`: exactly the stored lessons in which `userId` is the student or the teacher. */
    function GetLessons(userId: string): (r: seq<Lesson>)
      reads this
      requires Valid()
      ensures forall i :: 0 <= i < |r| ==>
                (r[i].studentId == userId || r[i].teacherId == userId) && r[i] in lessons.Values()
      ensures forall i :: (0 <= i < |lessons.Values()| &&
                  (lessons.Values()[i].studentId == userId || lessons.Values()[i].teacherId == userId))
                ==> lessons.Values()[i] in r
    {
      Seqs.Filter(lessons.Values(), (l: Lesson) => l.studentId == userId || l.teacherId == userId)
    }

    /** `createLesson`: stores the insert record spread under a fresh id; a
        missing status is stored as missing. */
    method CreateLesson(ins: InsertLesson, id: string, now: Timestamp) returns (lesson: Lesson)
      requires Valid() && id !in lessons.entries
      modifies this
      ensures Valid()
      ensures lesson == LessonFromInsert(ins, id, now)
      ensures lessons == old(lessons).Set(id, lesson)
      ensures lessons.Values() == old(lessons.Values()) + [lesson]
      ensures Snapshot() == old(Snapshot()).(lessons := lessons)
    {
      lesson := LessonFromInsert(ins, id, now);
      SetFreshValues(lessons, id, lesson);
      lessons := lessons.Set(id, lesson);
    }

    /** `updateLesson`: an unknown id changes nothing; otherwise the merged lesson
        replaces the old one under the same key and is returned. */
    method UpdateLesson(id: string, updates: LessonUpdate) returns (r: Option<Lesson>)
      requires Valid()
      modifies this
      ensures Valid()
      ensures id !in old(lessons.entries) ==> r.None? && Snapshot() == old(Snapshot())
      ensures id in old(lessons.entries) ==>
                && r == Some(MergeLesson(old(lessons.entries[id]), updates))
                && lessons == old(lessons).Set(id, r.value)
                && lessons.keys == old(lessons.keys)
                && Snapshot() == old(Snapshot()).(lessons := lessons)
    {
      var current := lessons.Get(id);
      if current.None? {
        return None;
      }
      var updated := MergeLesson(current.value, updates);
      lessons := lessons.Set(id, updated);
      r := Some(updated);
    }

    // ------------------------------------------------------------ resources

    /** `getResources`: every stored resource, in insertion order. */
    function GetResources(): (r: seq<Resource>)
      reads this
      requires Valid()
      ensures |r| == |resources.keys|
      ensures forall i :: 0 <= i < |r| ==> r[i] == resources.entries[resources.keys[i]]
      ensures forall id :: id in resources.entries ==> resources.entries[id] in r
    {
      resources.Values()
    }

    /** `createResource`: stores the insert record spread; a missing
        `isPremium` is stored as missing. */
    method CreateResource(ins: InsertResource, id: string, now: Timestamp) returns (resource: Resource)
      requires Valid() && id !in resources.entries
      modifies this
      ensures Valid()
      ensures resource == ResourceFromInsert(ins, id, now)
      ensures resources.Values() == old(resources.Values()) + [resource]
      ensures Snapshot() == old(Snapshot()).(resources := resources)
    {
      resource := ResourceFromInsert(ins, id, now);
      SetFreshValues(resources, id, resource);
      resources := resources.Set(id, resource);
    }

    // ---------------------------------------------------------------- forum

    /** `getForumPosts`: every stored post, in insertion order. */
    function GetForumPosts(): (r: seq<ForumPost>)
      reads this
      requires Valid()
      ensures |r| == |forumPosts.keys|
      ensures forall i :: 0 <= i < |r| ==> r[i] == forumPosts.entries[forumPosts.keys[i]]
      ensures forall id :: id in forumPosts.entries ==> forumPosts.entries[id] in r
    {
      forumPosts.Values()
    }

    /** `createForumPost`: the new post always starts with 0 replies. */
    method CreateForumPost(ins: InsertForumPost, id: string, now: Timestamp) returns (post: ForumPost)
      requires Valid() && id !in forumPosts.entries
      modifies this
      ensures Valid()
      ensures post == ForumPostFromInsert(ins, id, now) && post.replies == 0
      ensures forumPosts.Values() == old(forumPosts.Values()) + [post]
      ensures Snapshot() == old(Snapshot()).(forumPosts := forumPosts)
    {
      post := ForumPostFromInsert(ins, id, now);
      SetFreshValues(forumPosts, id, post);
      forumPosts := forumPosts.Set(id, post);
    }

    // ------------------------------------------------------------- contacts

    /** `createContactMessage`: the new message always has status "new". */
    method CreateContactMessage(ins: InsertContactMessage, id: string, now: Timestamp)
      returns (message: ContactMessage)
      requires Valid() && id !in contactMessages.entries
      modifies this
      ensures Valid()
      ensures message == ContactMessageFromInsert(ins, id, now) && message.status == "new"
      ensures contactMessages.Values() == old(contactMessages.Values()) + [message]
      ensures Snapshot() == old(Snapshot()).(contactMessages := contactMessages)
    {
      message := ContactMessageFromInsert(ins, id, now);
      SetFreshValues(contactMessages, id, message);
      contactMessages := contactMessages.Set(id, message);
    }
  }
}
