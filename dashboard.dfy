/** The statistics of the student dashboard, derived from the fetched
    quizzes, quiz results and lessons. Data still loading is `None`. The
    percentages are exact over the reals, and the clock is the parameter `now`. */
module Dashboard {
  import opened Wrappers
  import opened Schema
  import Seqs
  import Text
  import JsMath

  // ----------------------------------------------------------------- counts

  /** `data?.length || 0`: the number of fetched items, 0 while loading. */
  function CountOrZero<T>(data: Option<seq<T>>): (n: nat)
    ensures data.None? ==> n == 0
    ensures data.Some? ==> n == |data.value|
  {
    match data
    case None => 0
    case Some(items) => |items|
  }

  // ------------------------------------------------------------ percentages

  /** A result whose percentage is defined (the source divides by `totalQuestions`). */
  predicate Scored(r: QuizResult) {
    r.totalQuestions > 0
  }

  predicate AllScored(rs: seq<QuizResult>) {
    forall i :: 0 <= i < |rs| ==> Scored(rs[i])
  }

  /** A score no larger than the number of questions. */
  predicate WithinTotal(r: QuizResult) {
    0 <= r.score <= r.totalQuestions
  }

  /** `result.score / result.totalQuestions`. */
  function Ratio(r: QuizResult): real
    requires Scored(r)
  {
    r.score as real / r.totalQuestions as real
  }

  /** The sum the average's `reduce` builds: 100·score/total over all results. */
  function PercentSum(rs: seq<QuizResult>): real
    requires AllScored(rs)
  {
    if rs == [] then 0.0 else PercentSum(rs[..|rs| - 1]) + Ratio(rs[|rs| - 1]) * 100.0
  }

  /** Every summand lies in 0..100, so the sum lies in 0..100·n. */
  lemma {:induction false} PercentSumBounds(rs: seq<QuizResult>)
    requires AllScored(rs)
    requires forall i :: 0 <= i < |rs| ==> WithinTotal(rs[i])
    ensures 0.0 <= PercentSum(rs) <= 100.0 * |rs| as real
  {
    if rs != [] {
      var last := rs[|rs| - 1];
      PercentSumBounds(rs[..|rs| - 1]);
      var q := Ratio(last);
      assert 0.0 <= q <= 1.0 by {
        assert q * last.totalQuestions as real == last.score as real;
      }
    }
  }

  /** `averageScore`: 0 without results, else the rounded mean percentage. */
  function AverageScore(results: Option<seq<QuizResult>>): (avg: int)
    requires results.Some? ==> AllScored(results.value)
    ensures CountOrZero(results) == 0 ==> avg == 0
    ensures CountOrZero(results) > 0 ==>
              avg == JsMath.Round(PercentSum(results.value) / |results.value| as real)
  {
    if results.None? || results.value == [] then 0
    else JsMath.Round(PercentSum(results.value) / |results.value| as real)
  }

  /** With every score within its total, the average lies in 0..100. */
  lemma AverageScoreBounds(results: Option<seq<QuizResult>>)
    requires results.Some? ==> AllScored(results.value)
    requires results.Some? ==> forall i :: 0 <= i < |results.value| ==> WithinTotal(results.value[i])
    ensures 0 <= AverageScore(results) <= 100
  {
    if results.Some? && results.value != [] {
      var rs := results.value;
      var n := |rs| as real;
      PercentSumBounds(rs);
      var mean := PercentSum(rs) / n;
      assert 0.0 <= mean <= 100.0 by {
        assert mean * n == PercentSum(rs);
      }
      JsMath.RoundWithin(mean, 0, 100);
    }
  }

  /** With one result, the average is that result's own rounded percentage. */
  lemma AverageOfOne(r: QuizResult)
    requires Scored(r)
    ensures AverageScore(Some([r])) == JsMath.Percent(r.score, r.totalQuestions)
  {
    assert [r][..0] == [];
    assert PercentSum([r]) == Ratio(r) * 100.0;
    assert PercentSum([r]) / 1 as real == r.score as real / r.totalQuestions as real * 100.0;
  }

  /** `overallProgress`: 0 without quizzes, else completed over total as a rounded percentage. */
  function OverallProgress(totalQuizzes: nat, completedQuizzes: nat): (p: int)
    ensures totalQuizzes == 0 ==> p == 0
    ensures totalQuizzes > 0 ==> p == JsMath.Percent(completedQuizzes, totalQuizzes)
    ensures p >= 0
  {
    if totalQuizzes > 0 then
      var q := completedQuizzes as real / totalQuizzes as real;
      assert q >= 0.0 by { assert q * totalQuizzes as real == completedQuizzes as real; }
      JsMath.RoundMonotone(0.0, q * 100.0);
      JsMath.RoundOfInt(0);
      JsMath.Percent(completedQuizzes, totalQuizzes)
    else 0
  }

  /** The progress reaches 100 when every quiz has a result and exceeds it when
      retakes add more results than there are quizzes: it is not capped. */
  lemma ProgressNotCapped()
    ensures OverallProgress(3, 3) == 100
    ensures OverallProgress(1, 2) == 200
  {
    assert 3 as real / 3 as real * 100.0 == 100.0;
    JsMath.RoundOfInt(100);
    assert 2 as real / 1 as real * 100.0 == 200.0;
    JsMath.RoundOfInt(200);
  }

  /** Up to one result per quiz, the progress stays within 0..100. */
  lemma ProgressBounds(totalQuizzes: nat, completedQuizzes: nat)
    requires completedQuizzes <= totalQuizzes
    ensures 0 <= OverallProgress(totalQuizzes, completedQuizzes) <= 100
  {
    if totalQuizzes > 0 {
      JsMath.PercentBounds(completedQuizzes, totalQuizzes);
    }
  }

  // ------------------------------------------------------------- upcoming

  const ScheduledStatus: string := "scheduled"

  /** A lesson still ahead whose status is "scheduled"; a lesson with no
      status is not. */
  predicate Upcoming(l: Lesson, now: Timestamp) {
    l.scheduledAt > now && l.status == Some(ScheduledStatus)
  }

  /** `upcomingLessons`: the upcoming lessons in their fetched order, none while loading. */
  function UpcomingLessons(lessons: Option<seq<Lesson>>, now: Timestamp): (r: seq<Lesson>)
    ensures forall i :: 0 <= i < |r| ==> Upcoming(r[i], now)
    ensures lessons.Some? ==> forall i :: 0 <= i < |r| ==> r[i] in lessons.value
    ensures lessons.Some? ==> forall l :: l in lessons.value ==> (l in r <==> Upcoming(l, now))
    ensures lessons.None? ==> r == []
  {
    match lessons
    case None => []
    case Some(ls) =>
      var r := Seqs.Filter(ls, (l: Lesson) => Upcoming(l, now));
      assert forall l :: l in ls && Upcoming(l, now) ==> l in r by {
        forall l | l in ls && Upcoming(l, now)
          ensures l in r
        {
          var i :| 0 <= i < |ls| && ls[i] == l;
        }
      }
      r
  }

  /** A lesson fetched later is upcoming after one fetched earlier (order is kept). */
  lemma UpcomingKeepsOrder(a: seq<Lesson>, b: seq<Lesson>, now: Timestamp)
    ensures UpcomingLessons(Some(a + b), now) == UpcomingLessons(Some(a), now) + UpcomingLessons(Some(b), now)
  {
    Seqs.FilterAppend(a, b, (l: Lesson) => Upcoming(l, now));
  }

  // ------------------------------------------------------- recent activity

  datatype ActivityKind = QuizActivity | LessonActivity

  /** One line of the recent-activity list; the icon follows the kind. */
  datatype Activity = Activity(kind: ActivityKind, title: string, description: string, time: Timestamp)

  /** `Score: N%` for a completed quiz. */
  function QuizActivityOf(r: QuizResult): (a: Activity)
    requires Scored(r)
    ensures a.kind == QuizActivity && a.time == r.completedAt
  {
    Activity(QuizActivity, "Completed quiz",
             "Score: " + Text.IntToString(JsMath.Percent(r.score, r.totalQuestions)) + "%",
             r.completedAt)
  }

  /** `<type> lesson`, titled by the lesson. */
  function LessonActivityOf(l: Lesson): (a: Activity)
    ensures a.kind == LessonActivity && a.title == l.title && a.time == l.scheduledAt
  {
    Activity(LessonActivity, l.title, l.lessonType + " lesson", l.scheduledAt)
  }

  function QuizActivities(rs: seq<QuizResult>): (r: seq<Activity>)
    requires AllScored(rs)
    ensures |r| == |rs| && forall i :: 0 <= i < |r| ==> r[i] == QuizActivityOf(rs[i])
  {
    seq(|rs|, i requires 0 <= i < |rs| => QuizActivityOf(rs[i]))
  }

  function LessonActivities(ls: seq<Lesson>): (r: seq<Activity>)
    ensures |r| == |ls| && forall i :: 0 <= i < |r| ==> r[i] == LessonActivityOf(ls[i])
  {
    seq(|ls|, i requires 0 <= i < |ls| => LessonActivityOf(ls[i]))
  }

  /** Newest first. */
  predicate NewestFirst(s: seq<Activity>) {
    forall i, j :: 0 <= i < j < |s| ==> s[i].time >= s[j].time
  }

  /** An element at least as new as the head of a newest-first list may go in front of it. */
  lemma ConsNewest(a: Activity, rest: seq<Activity>)
    requires NewestFirst(rest) && (rest == [] || a.time >= rest[0].time)
    ensures NewestFirst([a] + rest)
  {
    var r := [a] + rest;
    forall i, j | 0 <= i < j < |r| ensures r[i].time >= r[j].time {
      assert r[j] == rest[j - 1];
      if i > 0 { assert r[i] == rest[i - 1]; } else if j > 1 { assert rest[0].time >= rest[j - 1].time; }
    }
  }

  /** Places `x` after every element at least as new, so equal times keep their order. */
  function InsertByTime(x: Activity, s: seq<Activity>): (r: seq<Activity>)
    ensures multiset(r) == multiset(s) + multiset{x}
    ensures |r| == |s| + 1
    ensures r[0] == x || (s != [] && r[0] == s[0])
  {
    if s == [] then [x]
    else if x.time > s[0].time then [x] + s
    else
      assert s == [s[0]] + s[1..];
      [s[0]] + InsertByTime(x, s[1..])
  }

  /** Inserting into a newest-first list keeps it newest first. */
  lemma {:induction false} InsertKeepsNewestFirst(x: Activity, s: seq<Activity>)
    requires NewestFirst(s)
    ensures NewestFirst(InsertByTime(x, s))
  {
    if s != [] {
      if x.time > s[0].time {
        ConsNewest(x, s);
      } else {
        var tail := s[1..];
        assert NewestFirst(tail) by {
          assert forall i :: 0 <= i < |tail| ==> tail[i] == s[i + 1];
        }
        InsertKeepsNewestFirst(x, tail);
        var rest := InsertByTime(x, tail);
        assert rest[0].time <= s[0].time by {
          if rest[0] != x { assert rest[0] == tail[0] == s[1]; }
        }
        ConsNewest(s[0], rest);
      }
    }
  }

  /** `sort((a, b) => b.time - a.time)`: a stable sort, newest first. */
  function SortNewestFirst(s: seq<Activity>): (r: seq<Activity>)
    ensures NewestFirst(r)
    ensures multiset(r) == multiset(s)
    ensures |r| == |s|
  {
    if s == [] then []
    else
      var init := s[..|s| - 1];
      assert s == init + [s[|s| - 1]];
      InsertKeepsNewestFirst(s[|s| - 1], SortNewestFirst(init));
      InsertByTime(s[|s| - 1], SortNewestFirst(init))
  }

  /** The last `n` results, still scored. */
  lemma LastScored(rs: seq<QuizResult>, n: nat)
    requires AllScored(rs)
    ensures AllScored(Seqs.Last(rs, n))
  {
    var l := Seqs.Last(rs, n);
    assert forall i :: 0 <= i < |l| ==> l[i] == rs[|rs| - |l| + i];
  }

  /** The quiz part of the candidates. */
  function RecentQuizPart(results: Option<seq<QuizResult>>): (q: seq<Activity>)
    requires results.Some? ==> AllScored(results.value)
    ensures |q| <= 3
    ensures forall a :: a in q ==> results.Some? && exists r :: r in Seqs.Last(results.value, 3) && a == QuizActivityOf(r)
    ensures results.Some? ==>
              var l := Seqs.Last(results.value, 3);
              |q| == |l| && forall i :: 0 <= i < |q| ==> q[i] == QuizActivityOf(l[i])
  {
    match results
    case None => []
    case Some(rs) =>
      var l := Seqs.Last(rs, 3);
      LastScored(rs, 3);
      var q := QuizActivities(l);
      assert forall a :: a in q ==> exists r :: r in l && a == QuizActivityOf(r) by {
        forall a | a in q ensures exists r :: r in l && a == QuizActivityOf(r) {
          var i :| 0 <= i < |q| && q[i] == a;
          assert l[i] in l;
        }
      }
      q
  }

  /** The lesson part of the candidates. */
  function RecentLessonPart(lessons: Option<seq<Lesson>>): (q: seq<Activity>)
    ensures |q| <= 2
    ensures forall a :: a in q ==> lessons.Some? && exists l :: l in Seqs.Last(lessons.value, 2) && a == LessonActivityOf(l)
    ensures lessons.Some? ==>
              var l := Seqs.Last(lessons.value, 2);
              |q| == |l| && forall i :: 0 <= i < |q| ==> q[i] == LessonActivityOf(l[i])
  {
    match lessons
    case None => []
    case Some(ls) =>
      var l := Seqs.Last(ls, 2);
      var q := LessonActivities(l);
      assert forall a :: a in q ==> exists x :: x in l && a == LessonActivityOf(x) by {
        forall a | a in q ensures exists x :: x in l && a == LessonActivityOf(x) {
          var i :| 0 <= i < |q| && q[i] == a;
          assert l[i] in l;
        }
      }
      q
  }

  /** The activities the list is drawn from: the last 3 results, then the last 2 lessons. */
  function ActivityCandidates(results: Option<seq<QuizResult>>, lessons: Option<seq<Lesson>>): (c: seq<Activity>)
    requires results.Some? ==> AllScored(results.value)
    ensures |c| <= 5
    ensures forall a :: a in c <==> a in RecentQuizPart(results) || a in RecentLessonPart(lessons)
    ensures |c| == |RecentQuizPart(results)| + |RecentLessonPart(lessons)|
    ensures c[..|RecentQuizPart(results)|] == RecentQuizPart(results)
  {
    RecentQuizPart(results) + RecentLessonPart(lessons)
  }

  /** `recentActivity`: the candidates sorted newest first, at most five. */
  function RecentActivity(results: Option<seq<QuizResult>>, lessons: Option<seq<Lesson>>): (r: seq<Activity>)
    requires results.Some? ==> AllScored(results.value)
    ensures |r| <= 5
    ensures NewestFirst(r)
    ensures multiset(r) == multiset(ActivityCandidates(results, lessons))
  {
    Seqs.Take(SortNewestFirst(ActivityCandidates(results, lessons)), 5)
  }

  /** A quiz activity in the list comes from one of the last three results,
      a lesson activity from one of the last two lessons. */
  lemma RecentActivitySources(results: Option<seq<QuizResult>>, lessons: Option<seq<Lesson>>, a: Activity)
    requires results.Some? ==> AllScored(results.value)
    requires a in RecentActivity(results, lessons)
    ensures a.kind == QuizActivity ==>
              results.Some? && exists r :: r in Seqs.Last(results.value, 3) && a == QuizActivityOf(r)
    ensures a.kind == LessonActivity ==>
              lessons.Some? && exists l :: l in Seqs.Last(lessons.value, 2) && a == LessonActivityOf(l)
  {
    assert a in multiset(RecentActivity(results, lessons));
    assert a in ActivityCandidates(results, lessons);
    assert a in RecentQuizPart(results) || a in RecentLessonPart(lessons);
  }

  /** Conversely, each of the last three results and each of the last two
      lessons is listed. */
  lemma RecentActivityListsAll(results: Option<seq<QuizResult>>, lessons: Option<seq<Lesson>>)
    requires results.Some? ==> AllScored(results.value)
    ensures results.Some? ==>
              var l := Seqs.Last(results.value, 3);
              forall i :: 0 <= i < |l| ==> QuizActivityOf(l[i]) in RecentActivity(results, lessons)
    ensures lessons.Some? ==>
              var l := Seqs.Last(lessons.value, 2);
              forall i :: 0 <= i < |l| ==> LessonActivityOf(l[i]) in RecentActivity(results, lessons)
  {
    var r := RecentActivity(results, lessons);
    var c := ActivityCandidates(results, lessons);
    assert forall a :: a in c ==> a in r by {
      forall a | a in c ensures a in r {
        assert a in multiset(c);
      }
    }
    if results.Some? {
      QuizPartListed(results, lessons, c);
    }
    if lessons.Some? {
      LessonPartListed(results, lessons, c);
    }
  }

  /** Each activity of the last three results is a candidate. */
  lemma QuizPartListed(results: Option<seq<QuizResult>>, lessons: Option<seq<Lesson>>, c: seq<Activity>)
    requires results.Some? && AllScored(results.value)
    requires c == ActivityCandidates(results, lessons)
    ensures var l := Seqs.Last(results.value, 3);
            forall i :: 0 <= i < |l| ==> QuizActivityOf(l[i]) in c
  {
    var q := RecentQuizPart(results);
    var l := Seqs.Last(results.value, 3);
    forall i | 0 <= i < |l| ensures QuizActivityOf(l[i]) in c {
      assert q[i] == QuizActivityOf(l[i]);
      assert q[i] in q;
    }
  }

  /** Each activity of the last two lessons is a candidate. */
  lemma LessonPartListed(results: Option<seq<QuizResult>>, lessons: Option<seq<Lesson>>, c: seq<Activity>)
    requires lessons.Some? && (results.Some? ==> AllScored(results.value))
    requires c == ActivityCandidates(results, lessons)
    ensures var l := Seqs.Last(lessons.value, 2);
            forall i :: 0 <= i < |l| ==> LessonActivityOf(l[i]) in c
  {
    var p := RecentLessonPart(lessons);
    var l := Seqs.Last(lessons.value, 2);
    forall i | 0 <= i < |l| ensures LessonActivityOf(l[i]) in c {
      assert p[i] == LessonActivityOf(l[i]);
      assert p[i] in p;
    }
  }

  // ------------------------------------------------------------ thresholds

  const SuccessBadge: string := "bg-success-500/10 text-success-600"
  const WarningBadge: string := "bg-warning-500/10 text-warning-600"
  const DestructiveBadge: string := "bg-destructive/10 text-destructive"

  /** The badge of one result: success from 0.8, warning from 0.6, else destructive. */
  function ResultBadge(r: QuizResult): (badge: string)
    requires Scored(r)
    ensures badge == SuccessBadge <==> Ratio(r) >= 0.8
    ensures badge == WarningBadge <==> 0.6 <= Ratio(r) < 0.8
    ensures badge == DestructiveBadge <==> Ratio(r) < 0.6
  {
    if Ratio(r) >= 0.8 then SuccessBadge
    else if Ratio(r) >= 0.6 then WarningBadge
    else DestructiveBadge
  }

  /** The label under the average: the same 80/60 thresholds on the rounded average. */
  function AverageLabel(averageScore: int): (caption: string)
    ensures caption == "Excellent!" <==> averageScore >= 80
    ensures caption == "Good progress" <==> 60 <= averageScore < 80
    ensures caption == "Keep practicing" <==> averageScore < 60
  {
    if averageScore >= 80 then "Excellent!"
    else if averageScore >= 60 then "Good progress"
    else "Keep practicing"
  }

  /** The badge compares the exact ratio and the label the rounded percentage,
      so a single result of 159 out of 200 (79.5%) is "Excellent!" on average
      but carries the warning badge. */
  lemma BadgeAndLabelDisagree()
    ensures var r := QuizResult("r", "u", "q", 159, 200, [], 0);
            ResultBadge(r) == WarningBadge && AverageLabel(AverageScore(Some([r]))) == "Excellent!"
  {
    var r := QuizResult("r", "u", "q", 159, 200, [], 0);
    AverageOfOne(r);
    assert 159 as real / 200 as real * 100.0 == 79.5;
    assert JsMath.Percent(159, 200) == 80;
  }

  /** A higher score never gets a lower badge. */
  lemma BadgeMonotone(r: QuizResult, s: QuizResult)
    requires Scored(r) && Scored(s) && Ratio(r) <= Ratio(s)
    ensures ResultBadge(r) == SuccessBadge ==> ResultBadge(s) == SuccessBadge
    ensures ResultBadge(s) == DestructiveBadge ==> ResultBadge(r) == DestructiveBadge
  {
  }

  const BeginnerColor: string := "bg-success-500/10 text-success-600"
  const IntermediateColor: string := "bg-warning-500/10 text-warning-600"
  const AdvancedColor: string := "bg-destructive/10 text-destructive"
  const MutedColor: string := "bg-muted text-muted-foreground"

  /** `getDifficultyColor`: one colour per difficulty, muted for anything else. */
  function DifficultyColor(difficulty: string): (color: string)
    ensures difficulty == "beginner" ==> color == BeginnerColor
    ensures difficulty == "intermediate" ==> color == IntermediateColor
    ensures difficulty == "advanced" ==> color == AdvancedColor
    ensures difficulty !in {"beginner", "intermediate", "advanced"} ==> color == MutedColor
  {
    match difficulty
    case "beginner" => BeginnerColor
    case "intermediate" => IntermediateColor
    case "advanced" => AdvancedColor
    case _ => MutedColor
  }

  /** The three difficulties and the default all get different colours. */
  lemma DifficultyColorsDistinct(a: string, b: string)
    requires a in {"beginner", "intermediate", "advanced"}
    requires DifficultyColor(a) == DifficultyColor(b)
    ensures a == b
  {
    assert BeginnerColor[3] == 's' && IntermediateColor[3] == 'w' && AdvancedColor[3] == 'd' && MutedColor[3] == 'm';
  }
}
