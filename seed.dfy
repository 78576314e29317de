/** The records `seedData` puts into a fresh repository: one teacher account,
    three quizzes and three learning resources. */
module Seed {
  import opened Wrappers
  import opened Schema
  import opened OrderedMaps
  import opened KeyedMaps

  /** The ids `seedData` draws: one teacher, three quizzes, three resources. */
  datatype SeedIds = SeedIds(teacher: string, quizzes: seq<string>, resources: seq<string>)

  predicate Distinct(ids: seq<string>) {
    forall i, j :: 0 <= i < j < |ids| ==> ids[i] != ids[j]
  }

  predicate ValidSeedIds(s: SeedIds) {
    |s.quizzes| == 3 && |s.resources| == 3 && Distinct(s.quizzes) && Distinct(s.resources)
  }

  /** The seeded teacher account; `hashed` is the hash of "password". */
  function SeedTeacher(id: string, hashed: string, now: Timestamp): (u: User)
    ensures u.id == id && u.role == Some("teacher") && u.username == "teacher"
  {
    User(id, "teacher", "teacher@grammarmaster.com", hashed, "John", "Smith", Some("teacher"), None, now)
  }

  // The texts of the seeded quizzes and resources.
  const TensesDescription: string := "Master the use of simple present, present continuous, and present perfect tenses."
  const TensesQuestion1: string := "She _______ to work every morning at 8 AM."
  const TensesExplanation1: string := "With third person singular (she/he/it) in simple present, we add 's' to the verb."
  const TensesQuestion2: string := "They _______ studying English for two years."
  const TensesExplanation2: string := "Present perfect continuous shows an action that started in the past and continues to the present."
  const ConditionalsDescription: string := "Learn about zero, first, second, and third conditional structures."
  const ConditionalsQuestion1: string := "If it _______ tomorrow, we will stay inside."
  const ConditionalsExplanation1: string := "In first conditional, we use simple present in the if-clause and will + infinitive in the main clause."
  const AdvancedDescription: string := "Challenge yourself with complex grammatical structures and rules."
  const AdvancedQuestion1: string := "_______ the meeting been postponed, we would have had more time to prepare."
  const AdvancedExplanation1: string := "This is an inverted third conditional structure, where 'had' is moved to the beginning instead of using 'if'."
  const TensesGuideDescription: string := "Comprehensive guide covering all English tenses with examples and usage rules."
  const TensesGuideUrl: string := "/resources/tenses-guide.pdf"
  const ConditionalsVideoDescription: string := "Step-by-step video explanation of all conditional sentence types with practical examples."
  const ConditionalsVideoUrl: string := "/resources/conditionals-video.mp4"
  const ArticlesWorksheetDescription: string := "Practice exercises for mastering the correct usage of articles (a, an, the)."
  const ArticlesWorksheetUrl: string := "/resources/articles-worksheet.pdf"

  /** The three seeded quizzes. Every question's correct answer is one of its options,
      and question ids are distinct within each quiz. */
  function SeedQuizzes(ids: seq<string>, now: Timestamp): (qs: seq<Quiz>)
    requires |ids| == 3
    ensures |qs| == 3 && forall i :: 0 <= i < 3 ==> qs[i].id == ids[i]
    ensures Distinct(ids) ==> DistinctQuizIds(qs)
    ensures forall i, j :: 0 <= i < |qs| && 0 <= j < |qs[i].questions| ==>
              WellFormedQuestion(qs[i].questions[j])
    ensures forall i, j, k :: 0 <= i < |qs| && 0 <= j < k < |qs[i].questions| ==>
              qs[i].questions[j].id != qs[i].questions[k].id
    ensures forall i :: 0 <= i < |qs| ==> |qs[i].questions| > 0 && qs[i].timeLimit > 0
  {
    [ Quiz(ids[0], "Present Tenses",
           TensesDescription,
           "beginner", "tenses",
           [ Question(1, TensesQuestion1,
                      ["go", "goes", "going", "went"], 1,
                      TensesExplanation1),
             Question(2, TensesQuestion2,
                      ["are", "have been", "were", "had been"], 1,
                      TensesExplanation2) ],
           10, now),
      Quiz(ids[1], "Conditional Sentences",
           ConditionalsDescription,
           "intermediate", "conditionals",
           [ Question(1, ConditionalsQuestion1,
                      ["rain", "rains", "will rain", "rained"], 1,
                      ConditionalsExplanation1) ],
           15, now),
      Quiz(ids[2], "Advanced Grammar",
           AdvancedDescription,
           "advanced", "advanced",
           [ Question(1, AdvancedQuestion1,
                      ["Had", "If", "Should", "Were"], 0,
                      AdvancedExplanation1) ],
           20, now) ]
  }

  /** The three seeded resources. */
  function SeedResources(ids: seq<string>, now: Timestamp): (rs: seq<Resource>)
    requires |ids| == 3
    ensures |rs| == 3 && forall i :: 0 <= i < 3 ==> rs[i].id == ids[i]
    ensures Distinct(ids) ==> DistinctResourceIds(rs)
    ensures rs[0].isPremium == Some(false) && rs[1].isPremium == Some(true) && rs[2].isPremium == Some(false)
  {
    [ Resource(ids[0], "Complete Tenses Guide",
               TensesGuideDescription,
               "pdf", "grammar-guide", TensesGuideUrl, Some(false), Some(2048576), None, now),
      Resource(ids[1], "Mastering Conditionals",
               ConditionalsVideoDescription,
               "video", "video-lesson", ConditionalsVideoUrl, Some(true), Some(52428800),
               Some(2700), now),
      Resource(ids[2], "Article Usage Practice",
               ArticlesWorksheetDescription,
               "worksheet", "practice", ArticlesWorksheetUrl, Some(false), Some(1048576),
               None, now) ]
  }

  /** `qs.forEach(q => m.set(q.id, q))` for records whose ids are distinct and new. */
  method SetEachQuiz(m0: OMap<Quiz>, qs: seq<Quiz>) returns (m: OMap<Quiz>)
    requires m0.Valid() && QuizzesKeyed(m0.entries)
    requires DistinctQuizIds(qs)
    requires FreshQuizIds(qs, 0, m0)
    ensures m.Valid() && QuizzesKeyed(m.entries)
    ensures m.Values() == m0.Values() + qs
  {
    m := m0;
    var i := 0;
    while i < |qs|
      invariant 0 <= i <= |qs|
      invariant m.Valid() && QuizzesKeyed(m.entries)
      invariant m.Values() == m0.Values() + qs[..i]
      invariant FreshQuizIds(qs, i, m)
    {
      SetFreshValues(m, qs[i].id, qs[i]);
      QuizzesKeyedSet(m.entries, qs[i]);
      m := m.Set(qs[i].id, qs[i]);
      assert qs[..i + 1] == qs[..i] + [qs[i]];
      i := i + 1;
    }
    assert qs[..i] == qs;
  }

  /** `rs.forEach(r => m.set(r.id, r))` for records whose ids are distinct and new. */
  method SetEachResource(m0: OMap<Resource>, rs: seq<Resource>) returns (m: OMap<Resource>)
    requires m0.Valid() && ResourcesKeyed(m0.entries)
    requires DistinctResourceIds(rs)
    requires FreshResourceIds(rs, 0, m0)
    ensures m.Valid() && ResourcesKeyed(m.entries)
    ensures m.Values() == m0.Values() + rs
  {
    m := m0;
    var i := 0;
    while i < |rs|
      invariant 0 <= i <= |rs|
      invariant m.Valid() && ResourcesKeyed(m.entries)
      invariant m.Values() == m0.Values() + rs[..i]
      invariant FreshResourceIds(rs, i, m)
    {
      SetFreshValues(m, rs[i].id, rs[i]);
      ResourcesKeyedSet(m.entries, rs[i]);
      m := m.Set(rs[i].id, rs[i]);
      assert rs[..i + 1] == rs[..i] + [rs[i]];
      i := i + 1;
    }
    assert rs[..i] == rs;
  }
}
