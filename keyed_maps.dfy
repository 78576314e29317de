/** The id-keyed maps of the repository: each record sits under its own id,
    and a batch of records to insert has distinct, unused ids. */
module KeyedMaps {
  import opened Schema
  import opened OrderedMaps

  // Each record is stored under its own id.
  ghost predicate UsersKeyed(m: map<string, User>) { forall k :: k in m ==> m[k].id == k }
  ghost predicate QuizzesKeyed(m: map<string, Quiz>) { forall k :: k in m ==> m[k].id == k }
  ghost predicate ResultsKeyed(m: map<string, QuizResult>) { forall k :: k in m ==> m[k].id == k }
  ghost predicate ResourcesKeyed(m: map<string, Resource>) { forall k :: k in m ==> m[k].id == k }
  ghost predicate PostsKeyed(m: map<string, ForumPost>) { forall k :: k in m ==> m[k].id == k }
  ghost predicate MessagesKeyed(m: map<string, ContactMessage>) { forall k :: k in m ==> m[k].id == k }

  predicate DistinctQuizIds(qs: seq<Quiz>) {
    forall i, j :: 0 <= i < j < |qs| ==> qs[i].id != qs[j].id
  }

  predicate DistinctResourceIds(rs: seq<Resource>) {
    forall i, j :: 0 <= i < j < |rs| ==> rs[i].id != rs[j].id
  }

  lemma QuizzesKeyedSet(m: map<string, Quiz>, q: Quiz)
    requires QuizzesKeyed(m)
    ensures QuizzesKeyed(m[q.id := q])
  {
  }

  lemma ResourcesKeyedSet(m: map<string, Resource>, r: Resource)
    requires ResourcesKeyed(m)
    ensures ResourcesKeyed(m[r.id := r])
  {
  }

  /** The ids from position `from` on are not yet keys of `m`. */
  predicate FreshQuizIds(qs: seq<Quiz>, from: nat, m: OMap<Quiz>) {
    forall j :: from <= j < |qs| ==> qs[j].id !in m.entries
  }

  predicate FreshResourceIds(rs: seq<Resource>, from: nat, m: OMap<Resource>) {
    forall j :: from <= j < |rs| ==> rs[j].id !in m.entries
  }
}
