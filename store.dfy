/** The MongoDB database `compiler_gamified` as in-memory tables: one record
    type per collection and a `Db` object whose fields are the
    collections. Documents are kept in natural (insertion) order, which is
    the order `find` returns them in. */
module Store {
  import opened Common

  /** An id as sent by the client: text that `ObjectId(...)` parses, or
      text it rejects (raising an exception). */
  datatype RawId = ObjectIdText(id: Id) | BadIdText(text: string)

  /** Python truthiness of a sent id: only the empty text is false. */
  predicate Truthy(r: Option<RawId>) {
    match r
    case None => false
    case Some(ObjectIdText(_)) => true
    case Some(BadIdText(t)) => t != ""
  }

  /** The message of Flask's response to an exception the handler raises. */
  const ServerError: string := "Internal Server Error"

  datatype User = User(
    id: Id, name: string, email: string, passwordHash: string, role: string,
    xp: int, level: int, badges: set<string>, completedModules: seq<Id>, createdAt: Time)

  datatype Course = Course(id: Id, title: string, description: string, moduleNos: seq<int>)

  datatype Module = Module(
    id: Id, courseId: Id, moduleNo: int, title: string, context: string,
    videoLinks: seq<string>, generatedFromPdf: bool)

  /** A question belongs to a module (`moduleId`) or, when it was written
      inside the contest form, to a contest (`contestId`). */
  datatype Owner = OfModule(moduleId: Id) | OfContest(contestId: Id)

  /** `source: 'manual'`, `generatedFromPDF: True`, `source: 'custom_contest'`. */
  datatype Origin = Manual | FromPdf | CustomContest

  datatype Question = Question(
    id: Id, owner: Owner, question: string, options: seq<string>,
    correctAnswer: int, difficulty: string, origin: Origin)

  datatype Contest = Contest(
    id: Id, title: string, moduleIds: seq<Id>, startTime: Option<string>, endTime: Option<string>,
    durationMinutes: int, marksPerQuestion: int, negativeMarking: real, tieBreak: string)

  /** One graded answer kept on a leaderboard entry. */
  datatype ProcessedAnswer = ProcessedAnswer(questionId: Id, selectedOption: int, isCorrect: bool)

  /** A leaderboard document; `timeTaken` and `rank` are `None` when the
      document has no such field (or, for `rank`, holds null). */
  datatype Entry = Entry(
    id: Id, contestId: Id, studentId: Id, score: real, timeTaken: Option<int>, rank: Option<int>,
    answers: seq<ProcessedAnswer>, submittedAt: Option<Time>, isSubmitted: bool)

  datatype Attempt = Attempt(
    studentId: Id, moduleId: Id, score: int, total: int, xpEarned: int, timeTaken: int, attemptedAt: Time)

  class Db {
    var users: seq<User>
    var courses: seq<Course>
    var modules: seq<Module>
    var questions: seq<Question>
    var contests: seq<Contest>
    var leaderboard: seq<Entry>
    var quizAttempts: seq<Attempt>
    /** The next ObjectId the store hands out. */
    var nextId: Id

    /** Every stored id was handed out before, so a newly allocated id is
        different from all of them. */
    ghost predicate Valid()
      reads this
    {
      && (forall u <- users :: u.id < nextId)
      && (forall c <- courses :: c.id < nextId)
      && (forall m <- modules :: m.id < nextId)
      && (forall q <- questions :: q.id < nextId)
      && (forall c <- contests :: c.id < nextId)
      && (forall e <- leaderboard :: e.id < nextId)
    }

    constructor ()
      ensures Valid()
      ensures users == [] && courses == [] && modules == [] && questions == []
      ensures contests == [] && leaderboard == [] && quizAttempts == []
    {
      users, courses, modules, questions := [], [], [], [];
      contests, leaderboard, quizAttempts := [], [], [];
      nextId := 0;
    }

    /** A fresh ObjectId: no stored document has it. */
    method NewId() returns (id: Id)
      requires Valid()
      modifies this`nextId
      ensures Valid() && id == old(nextId) && nextId == id + 1
      ensures forall u <- users :: u.id != id
      ensures forall c <- courses :: c.id != id
      ensures forall m <- modules :: m.id != id
      ensures forall q <- questions :: q.id != id
      ensures forall c <- contests :: c.id != id
      ensures forall e <- leaderboard :: e.id != id
    {
      id := nextId;
      nextId := nextId + 1;
    }
  }

  function IdOfUser(u: User): Id { u.id }
  function IdOfCourse(c: Course): Id { c.id }
  function IdOfModule(m: Module): Id { m.id }
  function IdOfQuestion(q: Question): Id { q.id }
  function IdOfContest(c: Contest): Id { c.id }

  /** `find_one({'_id': id})`: the position of the first document with that id. */
  function Find<T>(s: seq<T>, key: T -> Id, id: Id): (r: Option<nat>)
    ensures r.Some? ==> r.value < |s| && key(s[r.value]) == id
    ensures r.Some? ==> forall j :: 0 <= j < r.value ==> key(s[j]) != id
    ensures r.None? <==> forall j :: 0 <= j < |s| ==> key(s[j]) != id
  {
    if s == [] then None
    else if key(s[0]) == id then Some(0)
    else match Find(s[1..], key, id)
      case None => None
      case Some(k) => Some(k + 1)
  }

  /** The documents of `s` that `keep` accepts for the query value `p`, in
      stored order (`find` with a filter). */
  function Filter<T(!new), P>(s: seq<T>, keep: (T, P) -> bool, p: P): (r: seq<T>)
    ensures |r| <= |s|
    ensures forall x :: x in r <==> x in s && keep(x, p)
  {
    if s == [] then [] else (if keep(s[0], p) then [s[0]] else []) + Filter(s[1..], keep, p)
  }

  lemma {:induction false} FilterAppend<T(!new), P>(s: seq<T>, t: seq<T>, keep: (T, P) -> bool, p: P)
    ensures Filter(s + t, keep, p) == Filter(s, keep, p) + Filter(t, keep, p)
  {
    if s == [] {
      assert s + t == t;
    } else {
      assert (s + t)[1..] == s[1..] + t;
      FilterAppend(s[1..], t, keep, p);
    }
  }

  /** `list.remove`/`delete_one` on a known position. */
  function RemoveAt<T(!new)>(s: seq<T>, i: nat): (r: seq<T>)
    requires i < |s|
    ensures |r| == |s| - 1
    ensures forall x :: x in r ==> x in s
  {
    s[..i] + s[i + 1..]
  }

  /** What `update_one({'_id': id}, {'$set': ...})` reports and leaves:
      the table, `matched_count` and `modified_count`. */
  datatype Updated<T> = Updated(table: seq<T>, matched: nat, modified: nat)

  /** `update_one` on the first document with the id, `change` computing its
      new value; the document counts as modified only when it changed. */
  function UpdateOne<T(==)>(s: seq<T>, key: T -> Id, id: Id, change: T -> T): (r: Updated<T>)
    ensures |r.table| == |s| && r.modified <= r.matched <= 1
    ensures r.matched == 0 <==> Find(s, key, id).None?
    ensures r.matched == 0 ==> r.table == s
    ensures r.matched == 1 ==>
              var i := Find(s, key, id).value;
              && r.table == s[i := change(s[i])]
              && (r.modified == 1 <==> change(s[i]) != s[i])
  {
    match Find(s, key, id)
    case None => Updated(s, 0, 0)
    case Some(i) => Updated(s[i := change(s[i])], 1, if change(s[i]) == s[i] then 0 else 1)
  }

  /** An update that keeps ids finds the same document again. */
  lemma FindAfterUpdate<T>(s: seq<T>, key: T -> Id, id: Id, change: T -> T)
    requires forall x :: key(change(x)) == key(x)
    ensures Find(UpdateOne(s, key, id, change).table, key, id) == Find(s, key, id)
  {
    var t := UpdateOne(s, key, id, change).table;
    assert forall j :: 0 <= j < |s| ==> key(t[j]) == key(s[j]);
  }

  /** Sending the same update twice: the second one matches the same
      document and modifies nothing (`modified_count` 0). */
  lemma UpdateOneTwice<T>(s: seq<T>, key: T -> Id, id: Id, change: T -> T)
    requires forall x :: key(change(x)) == key(x)
    requires forall x :: change(change(x)) == change(x)
    ensures var first := UpdateOne(s, key, id, change);
            UpdateOne(first.table, key, id, change) == Updated(first.table, first.matched, 0)
  {
    FindAfterUpdate(s, key, id, change);
  }

  /** `delete_one({'_id': id})`: the table without the first document with
      the id, or none when no document has it (`deleted_count` 0). */
  function DeleteOne<T(!new)>(s: seq<T>, key: T -> Id, id: Id): (r: Option<seq<T>>)
    ensures r.None? <==> forall j :: 0 <= j < |s| ==> key(s[j]) != id
    ensures r.Some? ==> |r.value| == |s| - 1 && multiset(r.value) <= multiset(s)
    ensures r.Some? ==> exists i :: 0 <= i < |s| && key(s[i]) == id && r.value == s[..i] + s[i + 1..]
  {
    match Find(s, key, id)
    case None => None
    case Some(i) =>
      assert s == s[..i] + [s[i]] + s[i + 1..];
      Some(RemoveAt(s, i))
  }

  predicate InModule(q: Question, m: Id) { q.owner == OfModule(m) }
  predicate NotInModule(q: Question, m: Id) { q.owner != OfModule(m) }
  predicate InModules(q: Question, ms: seq<Id>) { q.owner.OfModule? && q.owner.moduleId in ms }
  predicate IdIn(q: Question, ids: seq<Id>) { q.id in ids }
  predicate OfStudent(a: Attempt, s: Id) { a.studentId == s }
  predicate OfCourse(m: Module, c: Id) { m.courseId == c }
  predicate NotOfContest(e: Entry, c: Id) { e.contestId != c }

  /** The question map a handler builds: id to question, a later document
      with the same id replacing an earlier one. */
  function QuestionIndex(qs: seq<Question>): (m: map<Id, Question>)
    ensures m.Keys == set q | q in qs :: q.id
    ensures forall id :: id in m ==> m[id] in qs && m[id].id == id
  {
    if qs == [] then map[]
    else
      var q := qs[|qs| - 1];
      var m := QuestionIndex(qs[..|qs| - 1]);
      assert forall x :: x in qs <==> x in qs[..|qs| - 1] || x == q;
      m[q.id := q]
  }

  /** A handler's question map, built document by document. */
  method BuildQuestionMap(qs: seq<Question>) returns (qmap: map<Id, Question>)
    ensures qmap == QuestionIndex(qs)
  {
    qmap := map[];
    var i := 0;
    while i < |qs|
      invariant 0 <= i <= |qs|
      invariant qmap == QuestionIndex(qs[..i])
    {
      assert qs[..i + 1][..i] == qs[..i];
      qmap := qmap[qs[i].id := qs[i]];
      i := i + 1;
    }
    assert qs[..i] == qs;
  }
}
