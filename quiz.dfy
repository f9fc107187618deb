/** Grading a module quiz and the XP, level, badge and completion updates
    that follow it (backend/src/routes/quiz_routes.py). */
module QuizRoutes {
  import opened Common
  import opened Store
  import opened Models

  /** One submitted answer; `selected` is -1 when the payload has none. */
  datatype Answer = Answer(questionId: Option<Id>, selected: int)

  /** The response body of a graded submission. */
  datatype QuizResult = QuizResult(
    score: nat, total: nat, xpEarned: nat, newLevel: int, previousLevel: int, badgesEarned: set<string>)

  /** An answer scores when its question is in the module's map and the
      selected option is that question's correct one. */
  predicate Scores(qmap: map<Id, Question>, a: Answer) {
    a.questionId.Some? && a.questionId.value in qmap && a.selected == qmap[a.questionId.value].correctAnswer
  }

  /** The number of scoring answers. */
  function Score(qmap: map<Id, Question>, answers: seq<Answer>): (n: nat)
    ensures n <= |answers|
  {
    if answers == [] then 0
    else Score(qmap, answers[..|answers| - 1]) + (if Scores(qmap, answers[|answers| - 1]) then 1 else 0)
  }

  /** The question ids of the scoring answers. */
  function ScoredIds(qmap: map<Id, Question>, answers: seq<Answer>): (ids: set<Id>)
    ensures ids <= qmap.Keys
  {
    set a | a in answers && Scores(qmap, a) :: a.questionId.value
  }

  predicate DistinctQuestions(answers: seq<Answer>) {
    forall i, j :: 0 <= i < j < |answers| && answers[i].questionId.Some? ==>
      answers[i].questionId != answers[j].questionId
  }

  /** When no question is answered twice, the score is the number of
      questions answered correctly, so it cannot exceed the module's total. */
  lemma {:induction false} ScoreAtMostTotal(qmap: map<Id, Question>, answers: seq<Answer>)
    requires DistinctQuestions(answers)
    ensures Score(qmap, answers) == |ScoredIds(qmap, answers)|
    ensures Score(qmap, answers) <= |qmap|
  {
    if answers != [] {
      var init := answers[..|answers| - 1];
      var a := answers[|answers| - 1];
      ScoreAtMostTotal(qmap, init);
      assert forall x :: x in answers <==> x in init || x == a;
      if Scores(qmap, a) {
        assert a.questionId.value !in ScoredIds(qmap, init);
        assert ScoredIds(qmap, answers) == ScoredIds(qmap, init) + {a.questionId.value};
      } else {
        assert ScoredIds(qmap, answers) == ScoredIds(qmap, init);
      }
    }
    assert |ScoredIds(qmap, answers)| <= |qmap.Keys|
      by { SubsetCardinality(ScoredIds(qmap, answers), qmap.Keys); }
  }

  lemma SubsetCardinality(a: set<Id>, b: set<Id>)
    requires a <= b
    ensures |a| <= |b|
  {
    assert b == a + (b - a);
  }

  /** The same correct answer sent twice scores twice: the score can exceed
      the number of questions in the module. */
  lemma RepeatedAnswerExceedsTotal(q: Question)
    ensures var qmap := map[q.id := q];
            var a := Answer(Some(q.id), q.correctAnswer);
            Score(qmap, [a, a]) == 2 && |qmap| == 1
  {
    var qmap := map[q.id := q];
    var a := Answer(Some(q.id), q.correctAnswer);
    assert [a, a][..1] == [a];
    assert [a][..0] == [];
    assert qmap.Keys == {q.id};
  }

  /** The grading loop of `submit_quiz`. */
  method Grade(qmap: map<Id, Question>, answers: seq<Answer>) returns (score: nat)
    ensures score == Score(qmap, answers)
  {
    score := 0;
    var i := 0;
    while i < |answers|
      invariant 0 <= i <= |answers|
      invariant score == Score(qmap, answers[..i])
    {
      assert answers[..i + 1][..i] == answers[..i];
      var a := answers[i];
      if a.questionId.Some? && a.questionId.value in qmap {
        var q := qmap[a.questionId.value];
        if a.selected == q.correctAnswer {
          score := score + 1;
        }
      }
      i := i + 1;
    }
    assert answers[..i] == answers;
  }

  /** An attempt's score ratio as `by_module` records it: 0 when the total is 0. */
  function Ratio(a: Attempt): real {
    if a.total != 0 then a.score as real / Max(a.total, 1) as real else 0.0
  }

  /** The 80% mark in integers: `score / max(total, 1) >= 0.8` with a non-zero total. */
  predicate Mastered(a: Attempt) {
    a.total != 0 && 5 * a.score >= 4 * Max(a.total, 1)
  }

  lemma RatioMastered(a: Attempt)
    ensures Ratio(a) >= 0.8 <==> Mastered(a)
  {
    if a.total != 0 {
      var t := Max(a.total, 1) as real;
      var sc := a.score as real;
      assert t > 0.0;
      assert Ratio(a) == sc / t;
      assert Ratio(a) * t == sc;
      assert Ratio(a) >= 0.8 <==> sc >= 0.8 * t;
      assert sc >= 0.8 * t <==> 5.0 * sc >= 4.0 * t;
    }
  }

  /** Module Master: the history has an attempt, and every module attempted
      in it has some attempt at 80% or better. */
  predicate MasterOf(history: seq<Attempt>) {
    |history| >= 1 &&
    forall a <- history :: SomeMastered(history, a.moduleId)
  }

  /** The `by_module` scan of `submit_quiz`: best ratio per module, then the
      80% test over all of them. */
  method ModuleMasterEarned(history: seq<Attempt>) returns (earned: bool)
    ensures earned == MasterOf(history)
  {
    var byModule: map<Id, real> := map[];
    var i := 0;
    while i < |history|
      invariant 0 <= i <= |history|
      invariant byModule.Keys == set a | a in history[..i] :: a.moduleId
      invariant forall m :: m in byModule ==> (byModule[m] >= 0.8 <==> SomeMastered(history[..i], m))
    {
      var at := history[i];
      var best := if at.moduleId in byModule then byModule[at.moduleId] else 0.0;
      var next := byModule[at.moduleId := if best >= Ratio(at) then best else Ratio(at)];
      ExtendBest(history[..i], at, byModule, next);
      assert history[..i + 1] == history[..i] + [at];
      byModule := next;
      i := i + 1;
    }
    assert history[..i] == history;
    earned := (forall m | m in byModule :: byModule[m] >= 0.8) && |byModule| >= 1;
    MasterFromBest(history, byModule);
  }

  /** Some attempt at module `m` in `h` reaches the 80% mark. */
  predicate SomeMastered(h: seq<Attempt>, m: Id) {
    exists b <- h :: b.moduleId == m && Mastered(b)
  }

  /** One step of the `by_module` scan keeps "best ratio reaches 80%" equal
      to "some attempt of the module reaches 80%". */
  lemma ExtendBest(h: seq<Attempt>, at: Attempt, before: map<Id, real>, after: map<Id, real>)
    requires before.Keys == set a | a in h :: a.moduleId
    requires forall m :: m in before ==> (before[m] >= 0.8 <==> SomeMastered(h, m))
    requires var best := if at.moduleId in before then before[at.moduleId] else 0.0;
             after == before[at.moduleId := if best >= Ratio(at) then best else Ratio(at)]
    ensures after.Keys == set a | a in h + [at] :: a.moduleId
    ensures forall m :: m in after ==> (after[m] >= 0.8 <==> SomeMastered(h + [at], m))
  {
    RatioMastered(at);
    assert forall x :: x in h + [at] <==> x in h || x == at;
    forall m | m in after
      ensures after[m] >= 0.8 <==> SomeMastered(h + [at], m)
    {
      if m == at.moduleId {
        assert SomeMastered(h + [at], m) <==> (m in before && SomeMastered(h, m)) || Mastered(at);
      } else {
        assert SomeMastered(h + [at], m) <==> SomeMastered(h, m);
      }
    }
  }

  /** The final test of the scan decides Module Master. */
  lemma MasterFromBest(history: seq<Attempt>, byModule: map<Id, real>)
    requires byModule.Keys == set a | a in history :: a.moduleId
    requires forall m :: m in byModule ==> (byModule[m] >= 0.8 <==> SomeMastered(history, m))
    ensures ((forall m | m in byModule :: byModule[m] >= 0.8) && |byModule| >= 1) == MasterOf(history)
  {
    if |history| >= 1 {
      assert history[0].moduleId in byModule;
      assert |byModule| == |byModule.Keys|;
    } else {
      assert byModule.Keys == {};
    }
    if forall m | m in byModule :: byModule[m] >= 0.8 {
      assert forall a <- history :: SomeMastered(history, a.moduleId);
    } else {
      var m :| m in byModule && byModule[m] < 0.8;
      var a :| a in history && a.moduleId == m;
      assert !SomeMastered(history, a.moduleId);
    }
  }

  /** The badge set after a graded attempt (`master` is the Module Master
      verdict on the history). */
  function BadgesAfter(badges: set<string>, score: int, total: int, timeTaken: int, master: bool): (b: set<string>)
    ensures badges <= b
    ensures BadgePerfect in b <==> BadgePerfect in badges || (total > 0 && score == total)
    ensures BadgeQuick in b <==> BadgeQuick in badges || (total > 0 && timeTaken > 0 && timeTaken <= 10 * total)
    ensures BadgeModuleMaster in b <==> BadgeModuleMaster in badges || master
    ensures b - badges <= {BadgePerfect, BadgeQuick, BadgeModuleMaster}
  {
    badges
    + (if total > 0 && score == total then {BadgePerfect} else {})
    + (if total > 0 && timeTaken > 0 && timeTaken <= 10 * total then {BadgeQuick} else {})
    + (if master then {BadgeModuleMaster} else {})
  }

  /** The completed-module list after an attempt: the module joins it, once,
      at a 70% pass mark. */
  function CompletedAfter(completed: seq<Id>, moduleId: Id, score: int, total: int): (r: seq<Id>)
    ensures r == completed || r == completed + [moduleId]
    ensures moduleId in r <==> moduleId in completed || 10 * score >= 7 * Max(total, 1)
    ensures Distinct(completed) ==> Distinct(r)
  {
    if 10 * score >= 7 * Max(total, 1) && moduleId !in completed then completed + [moduleId] else completed
  }

  /** The student record after a graded attempt. */
  function AfterQuiz(user: User, moduleId: Id, score: nat, total: nat, timeTaken: int, master: bool): User {
    user.(
      xp := user.xp + 5 * score,
      level := Level(user.xp + 5 * score),
      badges := BadgesAfter(user.badges, score, total, timeTaken, master),
      completedModules := CompletedAfter(user.completedModules, moduleId, score, total))
  }

  /** The question map of a module. */
  function ModuleQuestionMap(questions: seq<Question>, moduleId: Id): map<Id, Question> {
    QuestionIndex(Filter(questions, InModule, moduleId))
  }

  /** `POST /modules/<module_id>/submit`. A student id that `ObjectId(...)`
      rejects raises while the attempt is built, before anything is
      written; a missing one makes `ObjectId(None)` generate a fresh id, so
      the attempt is stored under an id no user has and the lookup fails. */
  method SubmitQuiz(db: Db, moduleId: Id, studentId: Option<RawId>, answers: seq<Answer>, timeTaken: int, now: Time)
    returns (r: Response<QuizResult>)
    requires db.Valid()
    modifies db`quizAttempts, db`users, db`nextId
    ensures db.Valid()
    ensures studentId.Some? && studentId.value.BadIdText? ==> r == Err(500, ServerError) && unchanged(db)
    ensures studentId.None? ==>
              var qmap := ModuleQuestionMap(old(db.questions), moduleId);
              var score := Score(qmap, answers);
              && db.quizAttempts
                 == old(db.quizAttempts) + [Attempt(old(db.nextId), moduleId, score, |qmap|, 5 * score, timeTaken, now)]
              && db.nextId == old(db.nextId) + 1
              && r == Err(500, ServerError) && db.users == old(db.users)
    ensures studentId.Some? && studentId.value.ObjectIdText? ==>
              var qmap := ModuleQuestionMap(old(db.questions), moduleId);
              var score := Score(qmap, answers);
              && db.nextId == old(db.nextId)
              && db.quizAttempts
                 == old(db.quizAttempts) + [Attempt(studentId.value.id, moduleId, score, |qmap|, 5 * score, timeTaken, now)]
    ensures studentId.Some? && studentId.value.ObjectIdText? && Find(old(db.users), IdOfUser, studentId.value.id).None? ==>
              r == Err(500, ServerError) && db.users == old(db.users)
    ensures studentId.Some? && studentId.value.ObjectIdText? && Find(old(db.users), IdOfUser, studentId.value.id).Some? ==>
              var sid := studentId.value.id;
              var k := Find(old(db.users), IdOfUser, sid).value;
              var user := old(db.users)[k];
              var qmap := ModuleQuestionMap(old(db.questions), moduleId);
              var score := Score(qmap, answers);
              var updated := AfterQuiz(user, moduleId, score, |qmap|, timeTaken,
                                       MasterOf(Filter(db.quizAttempts, OfStudent, sid)));
              && db.users == old(db.users)[k := updated]
              && r == Ok(QuizResult(score, |qmap|, 5 * score, Level(updated.xp), user.level, updated.badges - user.badges))
  {
    if studentId.Some? && studentId.value.BadIdText? {
      return Err(500, ServerError);
    }
    if studentId.None? {
      var sid := db.NewId();
      assert Find(db.users, IdOfUser, sid).None?;
      r := RecordAttempt(db, moduleId, sid, answers, timeTaken, now);
    } else {
      r := RecordAttempt(db, moduleId, studentId.value.id, answers, timeTaken, now);
    }
  }

  /** The rest of the handler once the student id is parsed: the attempt is
      stored before the student is looked up, so an unknown student leaves
      the attempt behind and fails with a server error. */
  method RecordAttempt(db: Db, moduleId: Id, studentId: Id, answers: seq<Answer>, timeTaken: int, now: Time)
    returns (r: Response<QuizResult>)
    requires db.Valid()
    modifies db`quizAttempts, db`users
    ensures db.Valid()
    ensures var qmap := ModuleQuestionMap(old(db.questions), moduleId);
            var score := Score(qmap, answers);
            db.quizAttempts == old(db.quizAttempts) + [Attempt(studentId, moduleId, score, |qmap|, 5 * score, timeTaken, now)]
    ensures var found := Find(old(db.users), IdOfUser, studentId);
            found.None? ==> r == Err(500, ServerError) && db.users == old(db.users)
    ensures var found := Find(old(db.users), IdOfUser, studentId);
            found.Some? ==>
              var k := found.value;
              var user := old(db.users)[k];
              var qmap := ModuleQuestionMap(old(db.questions), moduleId);
              var score := Score(qmap, answers);
              var updated := AfterQuiz(user, moduleId, score, |qmap|, timeTaken,
                                       MasterOf(Filter(db.quizAttempts, OfStudent, studentId)));
              && db.users == old(db.users)[k := updated]
              && r == Ok(QuizResult(score, |qmap|, 5 * score, Level(updated.xp), user.level, updated.badges - user.badges))
  {
    var qmap := BuildQuestionMap(Filter(db.questions, InModule, moduleId));
    assert qmap == ModuleQuestionMap(old(db.questions), moduleId);
    var score := Grade(qmap, answers);
    var total := |qmap|;
    var xpEarned := score * 5;
    var attempt := Attempt(studentId, moduleId, score, total, xpEarned, timeTaken, now);
    assert attempt == Attempt(studentId, moduleId, Score(qmap, answers), |qmap|, 5 * Score(qmap, answers), timeTaken, now);

    db.quizAttempts := db.quizAttempts + [attempt];

    var found := Find(db.users, IdOfUser, studentId);
    if found.None? {
      return Err(500, ServerError);
    }
    var result := UpdateStudent(db, found.value, moduleId, studentId, score, total, timeTaken);
    r := Ok(result);
  }

  /** The student's side of a submission, once the attempt is stored: xp,
      level, badges and completed modules, and the reply built from them. */
  method UpdateStudent(db: Db, k: nat, moduleId: Id, studentId: Id, score: nat, total: nat, timeTaken: int)
    returns (result: QuizResult)
    requires db.Valid() && k < |db.users|
    modifies db`users
    ensures db.Valid()
    ensures var user := old(db.users)[k];
            var updated := AfterQuiz(user, moduleId, score, total, timeTaken,
                                     MasterOf(Filter(db.quizAttempts, OfStudent, studentId)));
            && db.users == old(db.users)[k := updated]
            && result == QuizResult(score, total, 5 * score, Level(updated.xp), user.level, updated.badges - user.badges)
  {
    var user := db.users[k];
    var newXp := user.xp + score * 5;
    var master := ModuleMasterEarned(Filter(db.quizAttempts, OfStudent, studentId));
    var badges := BadgesAfter(user.badges, score, total, timeTaken, master);
    var completed := CompletedAfter(user.completedModules, moduleId, score, total);
    var level := LevelForXp(newXp);
    var updated := user.(xp := newXp, level := level, badges := badges, completedModules := completed);
    assert updated == AfterQuiz(user, moduleId, score, total, timeTaken, master);
    db.users := db.users[k := updated];
    var newLevel := LevelForXp(newXp);
    result := QuizResult(score, total, score * 5, newLevel, user.level, badges - user.badges);
  }
}
