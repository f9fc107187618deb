/** `admin_routes.py`: the admin dashboard's statistics, the create, update
    and delete routes for modules, questions and contests, and the two PDF
    routes. */
module AdminRoutes {
  import opened Common
  import opened Store
  import opened QuestionService

  // ---------------------------------------------------------------------
  // Statistics

  datatype Stats = Stats(
    totalUsers: nat, adminCount: nat, studentCount: nat, totalModules: nat,
    totalQuestions: nat, totalContests: nat, totalQuizAttempts: nat)

  /** `count_documents({'role': role})`. */
  function CountRole(users: seq<User>, role: string): (n: nat)
    ensures n <= |users|
    ensures n == 0 <==> forall u <- users :: u.role != role
  {
    if users == [] then 0
    else
      var init := users[..|users| - 1];
      assert forall u :: u in users <==> u in init || u == users[|users| - 1];
      CountRole(init, role) + (if users[|users| - 1].role == role then 1 else 0)
  }

  /** Users of two different roles are counted apart, so together they are
      at most all users. */
  lemma {:induction false} RoleCountsWithinTotal(users: seq<User>, r1: string, r2: string)
    requires r1 != r2
    ensures CountRole(users, r1) + CountRole(users, r2) <= |users|
  {
    if users != [] {
      RoleCountsWithinTotal(users[..|users| - 1], r1, r2);
    }
  }

  /** `get_admin_stats`. */
  function AdminStats(db: Db): (s: Stats)
    reads db
    ensures s.adminCount + s.studentCount <= s.totalUsers == |db.users|
    ensures s.totalModules == |db.modules| && s.totalQuestions == |db.questions|
    ensures s.totalContests == |db.contests| && s.totalQuizAttempts == |db.quizAttempts|
  {
    RoleCountsWithinTotal(db.users, "admin", "student");
    Stats(|db.users|, CountRole(db.users, "admin"), CountRole(db.users, "student"), |db.modules|,
          |db.questions|, |db.contests|, |db.quizAttempts|)
  }

  // ---------------------------------------------------------------------
  // Modules

  /** The fields of a module request body, each absent or present. */
  datatype ModuleBody = ModuleBody(
    courseId: Option<RawId>, moduleNo: Option<int>, title: Option<string>,
    context: Option<string>, videoLinks: Option<seq<string>>)

  /** The module `create_module` inserts under `id`, or its error. */
  function NewModuleOf(body: ModuleBody, id: Id): (r: Response<Module>)
    ensures r.Err? <==> !Truthy(body.courseId) || body.courseId.value.BadIdText?
                        || body.moduleNo.None? || body.moduleNo == Some(0) || !Present(body.title)
    ensures Truthy(body.courseId) && body.courseId.value.BadIdText? ==> r == Err(400, "Invalid Course ID format")
    ensures r.Err? && !(Truthy(body.courseId) && body.courseId.value.BadIdText?) ==> r == Err(400, "Missing fields")
    ensures r.Ok? ==>
              && r.value.id == id && r.value.courseId == body.courseId.value.id
              && r.value.moduleNo == body.moduleNo.value && r.value.title == body.title.value
              && r.value.context == body.context.GetOr("") && r.value.videoLinks == body.videoLinks.GetOr([])
              && !r.value.generatedFromPdf
  {
    if Truthy(body.courseId) && body.courseId.value.BadIdText? then Err(400, "Invalid Course ID format")
    else if !(Truthy(body.courseId) && body.moduleNo.Some? && body.moduleNo.value != 0 && Present(body.title)) then
      Err(400, "Missing fields")
    else
      Ok(Module(id, body.courseId.value.id, body.moduleNo.value, body.title.value,
                body.context.GetOr(""), body.videoLinks.GetOr([]), false))
  }

  /** `POST /admin/module/create`. */
  method CreateModule(db: Db, body: ModuleBody) returns (r: Response<string>)
    requires db.Valid()
    modifies db`modules, db`nextId
    ensures db.Valid()
    ensures NewModuleOf(body, old(db.nextId)).Err? ==>
              r == Err(NewModuleOf(body, old(db.nextId)).status, NewModuleOf(body, old(db.nextId)).message)
              && unchanged(db)
    ensures NewModuleOf(body, old(db.nextId)).Ok? ==>
              r == Ok("created") && db.modules == old(db.modules) + [NewModuleOf(body, old(db.nextId)).value]
  {
    var m := NewModuleOf(body, db.nextId);
    if m.Err? {
      return Err(m.status, m.message);
    }
    var id := db.NewId();
    db.modules := db.modules + [m.value];
    r := Ok("created");
  }

  /** The `$set` document of a module update: the fields to overwrite. */
  datatype ModuleSet = ModuleSet(
    courseId: Option<Id>, moduleNo: Option<int>, title: Option<string>,
    context: Option<string>, videoLinks: Option<seq<string>>)

  /** `update_data` of `update_module`: every whitelisted key of the body,
      the course id parsed (a malformed one raises). */
  function ModuleSetOf(body: ModuleBody): (r: Response<ModuleSet>)
    ensures r.Err? <==> body.courseId.Some? && body.courseId.value.BadIdText?
    ensures r.Err? ==> r == Err(500, ServerError)
    ensures r.Ok? ==>
              && (r.value.courseId.Some? <==> body.courseId.Some?)
              && (r.value.courseId.Some? ==> r.value.courseId.value == body.courseId.value.id)
              && r.value.moduleNo == body.moduleNo && r.value.title == body.title
              && r.value.context == body.context && r.value.videoLinks == body.videoLinks
  {
    match body.courseId
    case Some(BadIdText(_)) => Err(500, ServerError)
    case Some(ObjectIdText(id)) => Ok(ModuleSet(Some(id), body.moduleNo, body.title, body.context, body.videoLinks))
    case None => Ok(ModuleSet(None, body.moduleNo, body.title, body.context, body.videoLinks))
  }

  predicate ModuleSetEmpty(s: ModuleSet) {
    s.courseId.None? && s.moduleNo.None? && s.title.None? && s.context.None? && s.videoLinks.None?
  }

  /** `$set`: the listed fields take their new values. */
  function ApplyModuleSet(s: ModuleSet): Module -> Module {
    (m: Module) => m.(courseId := s.courseId.GetOr(m.courseId), moduleNo := s.moduleNo.GetOr(m.moduleNo),
            title := s.title.GetOr(m.title), context := s.context.GetOr(m.context),
            videoLinks := s.videoLinks.GetOr(m.videoLinks))
  }

  /** A module patch overwrites the fields present in the body and keeps
      every other field, the id among them; applying it twice is applying
      it once. */
  lemma ModulePatchFields(body: ModuleBody, m: Module)
    requires ModuleSetOf(body).Ok?
    ensures var p := ApplyModuleSet(ModuleSetOf(body).value)(m);
            && p.id == m.id && p.generatedFromPdf == m.generatedFromPdf
            && (if body.courseId.Some? then p.courseId == body.courseId.value.id else p.courseId == m.courseId)
            && p.moduleNo == body.moduleNo.GetOr(m.moduleNo) && p.title == body.title.GetOr(m.title)
            && p.context == body.context.GetOr(m.context) && p.videoLinks == body.videoLinks.GetOr(m.videoLinks)
            && ApplyModuleSet(ModuleSetOf(body).value)(p) == p
  {
  }

  /** `PUT /admin/module/update/<module_id>`: `Ok(modified_count)`. */
  method UpdateModule(db: Db, moduleId: Id, body: ModuleBody) returns (r: Response<nat>)
    requires db.Valid()
    modifies db`modules
    ensures db.Valid()
    ensures ModuleSetOf(body).Err? ==> r == Err(500, ServerError) && unchanged(db)
    ensures ModuleSetOf(body).Ok? && ModuleSetEmpty(ModuleSetOf(body).value) ==>
              r == Err(400, "No fields to update") && unchanged(db)
    ensures ModuleSetOf(body).Ok? && !ModuleSetEmpty(ModuleSetOf(body).value) ==>
              var u := UpdateOne(old(db.modules), IdOfModule, moduleId, ApplyModuleSet(ModuleSetOf(body).value));
              && (u.matched == 0 ==> r == Err(404, "Module not found"))
              && (u.matched == 1 ==> r == Ok(u.modified))
              && db.modules == u.table
  {
    var patch := ModuleSetOf(body);
    if patch.Err? {
      return Err(500, ServerError);
    }
    if ModuleSetEmpty(patch.value) {
      return Err(400, "No fields to update");
    }
    var u := UpdateOne(db.modules, IdOfModule, moduleId, ApplyModuleSet(patch.value));
    ModuleUpdateKeepsIds(db.modules, u.table, db.nextId);
    db.modules := u.table;
    if u.matched == 0 {
      return Err(404, "Module not found");
    }
    r := Ok(u.modified);
  }

  lemma ModuleUpdateKeepsIds(before: seq<Module>, after: seq<Module>, bound: nat)
    requires |after| == |before| && forall k :: 0 <= k < |before| ==> after[k].id == before[k].id
    requires forall m <- before :: m.id < bound
    ensures forall m <- after :: m.id < bound
  {
    forall m | m in after ensures m.id < bound {
      var k :| 0 <= k < |after| && after[k] == m;
      assert before[k] in before;
    }
  }

  /** Sending the same module update twice: the second one finds the module
      again and reports `modified_count` 0. */
  lemma UpdateModuleTwice(modules: seq<Module>, moduleId: Id, s: ModuleSet)
    ensures var first := UpdateOne(modules, IdOfModule, moduleId, ApplyModuleSet(s));
            UpdateOne(first.table, IdOfModule, moduleId, ApplyModuleSet(s)) == Updated(first.table, first.matched, 0)
  {
    UpdateOneTwice(modules, IdOfModule, moduleId, ApplyModuleSet(s));
  }

  /** `DELETE /admin/module/delete/<module_id>`: the module and, after it,
      every question of the module. */
  method DeleteModule(db: Db, moduleId: Id) returns (r: Response<nat>)
    requires db.Valid()
    modifies db`modules, db`questions
    ensures db.Valid()
    ensures DeleteOne(old(db.modules), IdOfModule, moduleId).None? ==> r == Err(404, "Module not found") && unchanged(db)
    ensures DeleteOne(old(db.modules), IdOfModule, moduleId).Some? ==>
              && r == Ok(1)
              && db.modules == DeleteOne(old(db.modules), IdOfModule, moduleId).value
              && db.questions == Filter(old(db.questions), NotInModule, moduleId)
  {
    var remaining := DeleteOne(db.modules, IdOfModule, moduleId);
    if remaining.None? {
      return Err(404, "Module not found");
    }
    db.modules := remaining.value;
    db.questions := Filter(db.questions, NotInModule, moduleId);
    r := Ok(1);
  }

  /** The cascade removes exactly the module's questions: those kept and
      those of the module make up the whole table. */
  lemma {:induction false} CascadeRemovesModuleQuestions(questions: seq<Question>, moduleId: Id)
    ensures |Filter(questions, NotInModule, moduleId)| + |Filter(questions, InModule, moduleId)| == |questions|
    ensures forall q <- Filter(questions, NotInModule, moduleId) :: q.owner != OfModule(moduleId)
  {
    if questions != [] {
      CascadeRemovesModuleQuestions(questions[1..], moduleId);
    }
  }

  // ---------------------------------------------------------------------
  // Questions

  datatype QuestionBody = QuestionBody(
    moduleId: Option<RawId>, question: Option<string>, options: Option<seq<string>>,
    correctAnswer: Option<int>, difficulty: Option<string>)

  /** The question `create_question` inserts under `id`, or its error: the
      presence check first, then the parse of the module id. */
  function NewQuestionOf(body: QuestionBody, id: Id): (r: Response<Question>)
    ensures r.Err? <==> !Truthy(body.moduleId) || !Present(body.question) || body.options.None?
                        || body.options == Some([]) || body.correctAnswer.None? || body.moduleId.value.BadIdText?
    ensures (!Truthy(body.moduleId) || !Present(body.question) || body.options.None? || body.options == Some([])
             || body.correctAnswer.None?) ==> r == Err(400, "Missing fields")
    ensures r.Err? && r.status != 400 ==> r == Err(500, ServerError)
    ensures r.Ok? ==>
              r.value == Question(id, OfModule(body.moduleId.value.id), body.question.value, body.options.value,
                                  body.correctAnswer.value, body.difficulty.GetOr("easy"), Manual)
  {
    if !(Truthy(body.moduleId) && Present(body.question) && body.options.Some? && body.options.value != []
         && body.correctAnswer.Some?) then
      Err(400, "Missing fields")
    else if body.moduleId.value.BadIdText? then Err(500, ServerError)
    else
      Ok(Question(id, OfModule(body.moduleId.value.id), body.question.value, body.options.value,
                  body.correctAnswer.value, body.difficulty.GetOr("easy"), Manual))
  }

  /** `POST /admin/question/create`. */
  method CreateQuestion(db: Db, body: QuestionBody) returns (r: Response<string>)
    requires db.Valid()
    modifies db`questions, db`nextId
    ensures db.Valid()
    ensures NewQuestionOf(body, old(db.nextId)).Err? ==>
              r == Err(NewQuestionOf(body, old(db.nextId)).status, NewQuestionOf(body, old(db.nextId)).message)
              && unchanged(db)
    ensures NewQuestionOf(body, old(db.nextId)).Ok? ==>
              r == Ok("created") && db.questions == old(db.questions) + [NewQuestionOf(body, old(db.nextId)).value]
  {
    var q := NewQuestionOf(body, db.nextId);
    if q.Err? {
      return Err(q.status, q.message);
    }
    var id := db.NewId();
    db.questions := db.questions + [q.value];
    r := Ok("created");
  }

  /** The fields of a question update body. */
  datatype QuestionSet = QuestionSet(
    question: Option<string>, options: Option<seq<string>>, correctAnswer: Option<int>, difficulty: Option<string>)

  predicate QuestionSetEmpty(s: QuestionSet) {
    s.question.None? && s.options.None? && s.correctAnswer.None? && s.difficulty.None?
  }

  function ApplyQuestionSet(s: QuestionSet): Question -> Question {
    (q: Question) => q.(question := s.question.GetOr(q.question), options := s.options.GetOr(q.options),
            correctAnswer := s.correctAnswer.GetOr(q.correctAnswer), difficulty := s.difficulty.GetOr(q.difficulty))
  }

  /** A question patch never moves a question to another module or contest
      and keeps its id and origin; applying it twice is applying it once. */
  lemma QuestionPatchFields(s: QuestionSet, q: Question)
    ensures var p := ApplyQuestionSet(s)(q);
            && p.id == q.id && p.owner == q.owner && p.origin == q.origin
            && p.question == s.question.GetOr(q.question) && p.options == s.options.GetOr(q.options)
            && p.correctAnswer == s.correctAnswer.GetOr(q.correctAnswer)
            && p.difficulty == s.difficulty.GetOr(q.difficulty)
            && ApplyQuestionSet(s)(p) == p
  {
  }

  /** `PUT /admin/question/update/<question_id>`: `Ok(modified_count)`. */
  method UpdateQuestion(db: Db, questionId: Id, s: QuestionSet) returns (r: Response<nat>)
    requires db.Valid()
    modifies db`questions
    ensures db.Valid()
    ensures QuestionSetEmpty(s) ==> r == Err(400, "No fields to update") && unchanged(db)
    ensures !QuestionSetEmpty(s) ==>
              var u := UpdateOne(old(db.questions), IdOfQuestion, questionId, ApplyQuestionSet(s));
              && (u.matched == 0 ==> r == Err(404, "Question not found"))
              && (u.matched == 1 ==> r == Ok(u.modified))
              && db.questions == u.table
  {
    if QuestionSetEmpty(s) {
      return Err(400, "No fields to update");
    }
    var u := UpdateOne(db.questions, IdOfQuestion, questionId, ApplyQuestionSet(s));
    QuestionUpdateKeepsIds(db.questions, u.table, db.nextId);
    db.questions := u.table;
    if u.matched == 0 {
      return Err(404, "Question not found");
    }
    r := Ok(u.modified);
  }

  lemma QuestionUpdateKeepsIds(before: seq<Question>, after: seq<Question>, bound: nat)
    requires |after| == |before| && forall k :: 0 <= k < |before| ==> after[k].id == before[k].id
    requires forall q <- before :: q.id < bound
    ensures forall q <- after :: q.id < bound
  {
    forall q | q in after ensures q.id < bound {
      var k :| 0 <= k < |after| && after[k] == q;
      assert before[k] in before;
    }
  }

  /** `DELETE /admin/question/delete/<question_id>`. */
  method DeleteQuestion(db: Db, questionId: Id) returns (r: Response<nat>)
    requires db.Valid()
    modifies db`questions
    ensures db.Valid()
    ensures DeleteOne(old(db.questions), IdOfQuestion, questionId).None? ==>
              r == Err(404, "Question not found") && unchanged(db)
    ensures DeleteOne(old(db.questions), IdOfQuestion, questionId).Some? ==>
              r == Ok(1) && db.questions == DeleteOne(old(db.questions), IdOfQuestion, questionId).value
  {
    var remaining := DeleteOne(db.questions, IdOfQuestion, questionId);
    if remaining.None? {
      return Err(404, "Question not found");
    }
    db.questions := remaining.value;
    r := Ok(1);
  }

  // ---------------------------------------------------------------------
  // Contests

  /** A question written inside the contest form. */
  datatype CustomQuestion = CustomQuestion(question: string, options: seq<string>, correctAnswer: int)

  datatype ContestBody = ContestBody(
    title: Option<string>, moduleIds: Option<seq<RawId>>, startTime: Option<string>, endTime: Option<string>,
    durationMinutes: Option<int>, marksPerQuestion: Option<int>, negativeMarking: Option<real>,
    tieBreak: Option<string>, customQuestions: Option<seq<CustomQuestion>>)

  /** `[ObjectId(m) for m in ids]`: none when one of them does not parse. */
  function ParseIds(raw: seq<RawId>): (r: Option<seq<Id>>)
    ensures r.None? <==> exists k :: 0 <= k < |raw| && raw[k].BadIdText?
    ensures r.Some? ==> |r.value| == |raw| && forall k :: 0 <= k < |raw| ==> r.value[k] == raw[k].id
  {
    if raw == [] then Some([])
    else
      match (raw[0], ParseIds(raw[1..]))
      case (BadIdText(_), _) => None
      case (_, None) => None
      case (ObjectIdText(id), Some(rest)) => Some([id] + rest)
  }

  /** The contest `create_contest` inserts under `id`, or its error: the
      ids in moduleIds are parsed before the title is checked. */
  function NewContestOf(body: ContestBody, id: Id): (r: Response<Contest>)
    ensures r.Err? <==> ParseIds(body.moduleIds.GetOr([])).None? || !Present(body.title)
    ensures ParseIds(body.moduleIds.GetOr([])).None? ==> r == Err(400, "Invalid Module ID in list")
    ensures ParseIds(body.moduleIds.GetOr([])).Some? && !Present(body.title) ==> r == Err(400, "Missing title")
    ensures r.Ok? ==>
              && r.value.id == id && r.value.title == body.title.value
              && r.value.moduleIds == ParseIds(body.moduleIds.GetOr([])).value
              && r.value.startTime == body.startTime && r.value.endTime == body.endTime
              && r.value.durationMinutes == body.durationMinutes.GetOr(30)
              && r.value.marksPerQuestion == body.marksPerQuestion.GetOr(1)
              && r.value.negativeMarking == body.negativeMarking.GetOr(0.0)
              && r.value.tieBreak == body.tieBreak.GetOr("time")
  {
    match ParseIds(body.moduleIds.GetOr([]))
    case None => Err(400, "Invalid Module ID in list")
    case Some(ids) =>
      if !Present(body.title) then Err(400, "Missing title")
      else
        Ok(Contest(id, body.title.value, ids, body.startTime, body.endTime, body.durationMinutes.GetOr(30),
                   body.marksPerQuestion.GetOr(1), body.negativeMarking.GetOr(0.0), body.tieBreak.GetOr("time")))
  }

  /** The stored custom questions of a contest, numbered from `firstId`. */
  function CustomRecords(custom: seq<CustomQuestion>, contestId: Id, firstId: Id): (r: seq<Question>)
    ensures |r| == |custom|
  {
    seq(|custom|, k requires 0 <= k < |custom| => CustomRecord(custom[k], contestId, firstId + k))
  }

  /** The document stored for one custom question: medium difficulty,
      marked as written for the contest. */
  function CustomRecord(c: CustomQuestion, contestId: Id, id: Id): (q: Question)
    ensures q.id == id && q.owner == OfContest(contestId) && q.origin == CustomContest
    ensures q.question == c.question && q.options == c.options && q.correctAnswer == c.correctAnswer
    ensures q.difficulty == "medium"
  {
    Question(id, OfContest(contestId), c.question, c.options, c.correctAnswer, "medium", CustomContest)
  }

  /** One more custom question is one more record, numbered next. */
  lemma CustomRecordsSnoc(custom: seq<CustomQuestion>, i: nat, contestId: Id, firstId: Id)
    requires i < |custom|
    ensures CustomRecords(custom[..i + 1], contestId, firstId)
            == CustomRecords(custom[..i], contestId, firstId) + [CustomRecord(custom[i], contestId, firstId + i)]
  {
  }

  /** One custom question stored under a fresh id. */
  method InsertCustomQuestion(db: Db, contestId: Id, c: CustomQuestion)
    requires db.Valid()
    modifies db`questions, db`nextId
    ensures db.Valid() && db.nextId == old(db.nextId) + 1
    ensures db.questions == old(db.questions) + [CustomRecord(c, contestId, old(db.nextId))]
  {
    var id := db.NewId();
    db.questions := db.questions + [Question(id, OfContest(contestId), c.question, c.options, c.correctAnswer,
                                             "medium", CustomContest)];
  }

  /** The custom-question loop of `create_contest`. */
  method InsertCustomQuestions(db: Db, contestId: Id, custom: seq<CustomQuestion>)
    requires db.Valid()
    modifies db`questions, db`nextId
    ensures db.Valid() && db.nextId == old(db.nextId) + |custom|
    ensures db.questions == old(db.questions) + CustomRecords(custom, contestId, old(db.nextId))
  {
    var i := 0;
    while i < |custom|
      invariant 0 <= i <= |custom| && db.Valid() && db.nextId == old(db.nextId) + i
      invariant db.questions == old(db.questions) + CustomRecords(custom[..i], contestId, old(db.nextId))
    {
      CustomRecordsSnoc(custom, i, contestId, old(db.nextId));
      InsertCustomQuestion(db, contestId, custom[i]);
      i := i + 1;
    }
    assert custom[..i] == custom;
  }

  /** `POST /admin/contest/create`: `Ok(contestId)`. */
  method CreateContest(db: Db, body: ContestBody) returns (r: Response<Id>)
    requires db.Valid()
    modifies db`contests, db`questions, db`nextId
    ensures db.Valid()
    ensures NewContestOf(body, old(db.nextId)).Err? ==>
              r == Err(NewContestOf(body, old(db.nextId)).status, NewContestOf(body, old(db.nextId)).message)
              && unchanged(db)
    ensures NewContestOf(body, old(db.nextId)).Ok? ==>
              && r == Ok(old(db.nextId))
              && db.contests == old(db.contests) + [NewContestOf(body, old(db.nextId)).value]
              && db.questions == old(db.questions)
                   + CustomRecords(body.customQuestions.GetOr([]), old(db.nextId), old(db.nextId) + 1)
  {
    var c := NewContestOf(body, db.nextId);
    if c.Err? {
      return Err(c.status, c.message);
    }
    var id := db.NewId();
    db.contests := db.contests + [c.value];
    InsertCustomQuestions(db, id, body.customQuestions.GetOr([]));
    r := Ok(id);
  }

  /** The fields of a contest update body; `startTime` and `endTime` may be
      sent as null. */
  datatype ContestPatchBody = ContestPatchBody(
    title: Option<string>, moduleIds: Option<seq<RawId>>, startTime: Option<Option<string>>,
    endTime: Option<Option<string>>, durationMinutes: Option<int>, marksPerQuestion: Option<int>,
    negativeMarking: Option<real>, tieBreak: Option<string>)

  datatype ContestSet = ContestSet(
    title: Option<string>, moduleIds: Option<seq<Id>>, startTime: Option<Option<string>>,
    endTime: Option<Option<string>>, durationMinutes: Option<int>, marksPerQuestion: Option<int>,
    negativeMarking: Option<real>, tieBreak: Option<string>)

  /** `update_data` of `update_contest`: every whitelisted key of the body,
      the module ids parsed (a malformed one raises). */
  function ContestSetOf(body: ContestPatchBody): (r: Response<ContestSet>)
    ensures r.Err? <==> body.moduleIds.Some? && ParseIds(body.moduleIds.value).None?
    ensures r.Err? ==> r == Err(500, ServerError)
    ensures r.Ok? ==>
              && (r.value.moduleIds.Some? <==> body.moduleIds.Some?)
              && (r.value.moduleIds.Some? ==> r.value.moduleIds == ParseIds(body.moduleIds.value))
              && r.value.title == body.title && r.value.startTime == body.startTime
              && r.value.endTime == body.endTime && r.value.durationMinutes == body.durationMinutes
              && r.value.marksPerQuestion == body.marksPerQuestion
              && r.value.negativeMarking == body.negativeMarking && r.value.tieBreak == body.tieBreak
  {
    var ids := if body.moduleIds.Some? then ParseIds(body.moduleIds.value) else Some([]);
    if ids.None? then Err(500, ServerError)
    else
      Ok(ContestSet(body.title, if body.moduleIds.Some? then ids else None, body.startTime, body.endTime,
                    body.durationMinutes, body.marksPerQuestion, body.negativeMarking, body.tieBreak))
  }

  predicate ContestSetEmpty(s: ContestSet) {
    && s.title.None? && s.moduleIds.None? && s.startTime.None? && s.endTime.None?
    && s.durationMinutes.None? && s.marksPerQuestion.None? && s.negativeMarking.None? && s.tieBreak.None?
  }

  function ApplyContestSet(s: ContestSet): Contest -> Contest {
    (c: Contest) => c.(title := s.title.GetOr(c.title), moduleIds := s.moduleIds.GetOr(c.moduleIds),
            startTime := s.startTime.GetOr(c.startTime), endTime := s.endTime.GetOr(c.endTime),
            durationMinutes := s.durationMinutes.GetOr(c.durationMinutes),
            marksPerQuestion := s.marksPerQuestion.GetOr(c.marksPerQuestion),
            negativeMarking := s.negativeMarking.GetOr(c.negativeMarking), tieBreak := s.tieBreak.GetOr(c.tieBreak))
  }

  /** A contest patch keeps the id, overwrites the fields present and keeps
      the others; applying it twice is applying it once. */
  lemma ContestPatchFields(s: ContestSet, c: Contest)
    ensures var p := ApplyContestSet(s)(c);
            && p.id == c.id && p.title == s.title.GetOr(c.title) && p.moduleIds == s.moduleIds.GetOr(c.moduleIds)
            && p.startTime == s.startTime.GetOr(c.startTime) && p.endTime == s.endTime.GetOr(c.endTime)
            && p.durationMinutes == s.durationMinutes.GetOr(c.durationMinutes)
            && p.marksPerQuestion == s.marksPerQuestion.GetOr(c.marksPerQuestion)
            && p.negativeMarking == s.negativeMarking.GetOr(c.negativeMarking)
            && p.tieBreak == s.tieBreak.GetOr(c.tieBreak)
            && ApplyContestSet(s)(p) == p
  {
  }

  /** `PUT /admin/contest/update/<contest_id>`: `Ok(modified_count)`. */
  method UpdateContest(db: Db, contestId: Id, body: ContestPatchBody) returns (r: Response<nat>)
    requires db.Valid()
    modifies db`contests
    ensures db.Valid()
    ensures ContestSetOf(body).Err? ==> r == Err(500, ServerError) && unchanged(db)
    ensures ContestSetOf(body).Ok? && ContestSetEmpty(ContestSetOf(body).value) ==>
              r == Err(400, "No fields to update") && unchanged(db)
    ensures ContestSetOf(body).Ok? && !ContestSetEmpty(ContestSetOf(body).value) ==>
              var u := UpdateOne(old(db.contests), IdOfContest, contestId, ApplyContestSet(ContestSetOf(body).value));
              && (u.matched == 0 ==> r == Err(404, "Contest not found"))
              && (u.matched == 1 ==> r == Ok(u.modified))
              && db.contests == u.table
  {
    var patch := ContestSetOf(body);
    if patch.Err? {
      return Err(500, ServerError);
    }
    if ContestSetEmpty(patch.value) {
      return Err(400, "No fields to update");
    }
    var u := UpdateOne(db.contests, IdOfContest, contestId, ApplyContestSet(patch.value));
    ContestUpdateKeepsIds(db.contests, u.table, db.nextId);
    db.contests := u.table;
    if u.matched == 0 {
      return Err(404, "Contest not found");
    }
    r := Ok(u.modified);
  }

  lemma ContestUpdateKeepsIds(before: seq<Contest>, after: seq<Contest>, bound: nat)
    requires |after| == |before| && forall k :: 0 <= k < |before| ==> after[k].id == before[k].id
    requires forall c <- before :: c.id < bound
    ensures forall c <- after :: c.id < bound
  {
    forall c | c in after ensures c.id < bound {
      var k :| 0 <= k < |after| && after[k] == c;
      assert before[k] in before;
    }
  }

  /** `DELETE /admin/contest/delete/<contest_id>`: the contest and its
      leaderboard entries. Its custom questions stay in the table. */
  method DeleteContest(db: Db, contestId: Id) returns (r: Response<nat>)
    requires db.Valid()
    modifies db`contests, db`leaderboard
    ensures db.Valid() && db.questions == old(db.questions)
    ensures DeleteOne(old(db.contests), IdOfContest, contestId).None? ==>
              r == Err(404, "Contest not found") && unchanged(db)
    ensures DeleteOne(old(db.contests), IdOfContest, contestId).Some? ==>
              && r == Ok(1)
              && db.contests == DeleteOne(old(db.contests), IdOfContest, contestId).value
              && db.leaderboard == Filter(old(db.leaderboard), NotOfContest, contestId)
  {
    var remaining := DeleteOne(db.contests, IdOfContest, contestId);
    if remaining.None? {
      return Err(404, "Contest not found");
    }
    db.contests := remaining.value;
    db.leaderboard := Filter(db.leaderboard, NotOfContest, contestId);
    r := Ok(1);
  }

  /** Deleting a contest removes its entries and keeps every other
      contest's entries, in order. */
  lemma {:induction false} ContestDeletionKeepsOthers(lb: seq<Entry>, contestId: Id, other: Id)
    requires other != contestId
    ensures Filter(Filter(lb, NotOfContest, contestId), OfContestId, other) == Filter(lb, OfContestId, other)
  {
    if lb != [] {
      ContestDeletionKeepsOthers(lb[1..], contestId, other);
      var e := lb[0];
      var rest := Filter(lb[1..], NotOfContest, contestId);
      var f := Filter(lb, NotOfContest, contestId);
      if NotOfContest(e, contestId) {
        assert f == [e] + rest;
        assert f[1..] == rest;
      } else {
        assert f == rest;
        assert Filter(lb, OfContestId, other) == Filter(lb[1..], OfContestId, other);
      }
    }
  }

  predicate OfContestId(e: Entry, c: Id) { e.contestId == c }

  // ---------------------------------------------------------------------
  // PDF routes

  /** What `upload_pdf` returns. */
  datatype Upload = Upload(extractedText: string, generatedQuestions: seq<GeneratedQuestion>)

  /** `POST /admin/pdf/upload`. `file` is the text extracted from the sent
      PDF, or none when no file was sent; `conceptMatches` and `dice` are
      the concept-pattern matches of that text and the random draws. */
  method UploadPdf(file: Option<string>, conceptMatches: seq<string>, dice: seq<Dice>) returns (r: Response<Upload>)
    ensures r.Err? <==> file.None?
    ensures r.Err? ==> r == Err(400, "No file provided")
    ensures r.Ok? ==>
              && r.value.extractedText == Take(file.value, 1000)
              && r.value.generatedQuestions == Mcqs(file.value, 10, conceptMatches, dice)
              && |r.value.generatedQuestions| <= 10
              && forall q <- r.value.generatedQuestions :: WellFormed(q)
  {
    if file.None? {
      return Err(400, "No file provided");
    }
    var generated := GenerateMcqs(file.value, 10, conceptMatches, dice);
    r := Ok(Upload(Take(file.value, 1000), generated));
  }

  /** The highest `moduleNo` among the course's modules. */
  function MaxModuleNo(modules: seq<Module>, courseId: Id): (r: Option<int>)
    ensures r.None? <==> forall m <- modules :: m.courseId != courseId
    ensures r.Some? ==> forall m <- modules :: m.courseId == courseId ==> m.moduleNo <= r.value
    ensures r.Some? ==> exists m <- modules :: m.courseId == courseId && m.moduleNo == r.value
  {
    if modules == [] then None
    else
      var init := modules[..|modules| - 1];
      var m := modules[|modules| - 1];
      assert forall x :: x in modules <==> x in init || x == m;
      var best := MaxModuleNo(init, courseId);
      if m.courseId != courseId then best
      else if best.Some? && best.value >= m.moduleNo then best
      else Some(m.moduleNo)
  }

  /** The number `generate_module_from_pdf` gives the new module: one more
      than the course's highest, or 1 for a course without modules. */
  function NextModuleNo(modules: seq<Module>, courseId: Id): (n: int)
    ensures forall m <- modules :: m.courseId == courseId ==> m.moduleNo < n
    ensures (forall m <- modules :: m.courseId != courseId) ==> n == 1
    ensures (exists m <- modules :: m.courseId == courseId) ==>
              exists m <- modules :: m.courseId == courseId && m.moduleNo == n - 1
  {
    match MaxModuleNo(modules, courseId)
    case None => 1
    case Some(top) => top + 1
  }

  /** The form fields of `generate_module_from_pdf`; `file` as for
      `UploadPdf`. */
  datatype PdfForm = PdfForm(file: Option<string>, courseId: Option<RawId>, moduleTitle: Option<string>, numQuestions: Option<int>)

  /** What `generate_module_from_pdf` returns. */
  datatype GeneratedModule = GeneratedModule(
    moduleId: Id, moduleNo: int, moduleTitle: string, questionsCreated: nat, extractedTextLength: nat)

  /** The validation of `generate_module_from_pdf`, in its order. */
  function PdfFormError(form: PdfForm): (r: Option<Response<GeneratedModule>>)
    ensures r.Some? ==> r.value.Err?
    ensures r.None? <==> form.file.Some? && Truthy(form.courseId) && |form.file.value| >= 100
                         && form.courseId.value.ObjectIdText?
    ensures form.file.None? ==> r == Some(Err(400, "No file provided"))
    ensures form.file.Some? && !Truthy(form.courseId) ==> r == Some(Err(400, "Course ID is required"))
    ensures form.file.Some? && Truthy(form.courseId) && |form.file.value| < 100 ==>
              r == Some(Err(400, "Could not extract meaningful text from PDF"))
    ensures form.file.Some? && Truthy(form.courseId) && |form.file.value| >= 100 && form.courseId.value.BadIdText? ==>
              r == Some(Err(500, ServerError))
  {
    if form.file.None? then Some(Err(400, "No file provided"))
    else if !Truthy(form.courseId) then Some(Err(400, "Course ID is required"))
    else if |form.file.value| < 100 then Some(Err(400, "Could not extract meaningful text from PDF"))
    else if form.courseId.value.BadIdText? then Some(Err(500, ServerError))
    else None
  }

  /** The stored generated questions of a module, numbered from `firstId`. */
  function PdfRecords(generated: seq<GeneratedQuestion>, moduleId: Id, firstId: Id): (r: seq<Question>)
    ensures |r| == |generated|
  {
    seq(|generated|, k requires 0 <= k < |generated| => PdfRecord(generated[k], moduleId, firstId + k))
  }

  /** The document stored for one generated question. */
  function PdfRecord(g: GeneratedQuestion, moduleId: Id, id: Id): (q: Question)
    ensures q.id == id && q.owner == OfModule(moduleId) && q.origin == FromPdf
    ensures q.question == g.question && q.options == g.options && q.correctAnswer == g.correctAnswer
    ensures q.difficulty == g.difficulty
  {
    Question(id, OfModule(moduleId), g.question, g.options, g.correctAnswer, g.difficulty, FromPdf)
  }

  /** One more generated question is one more record, numbered next. */
  lemma PdfRecordsSnoc(generated: seq<GeneratedQuestion>, i: nat, moduleId: Id, firstId: Id)
    requires i < |generated|
    ensures PdfRecords(generated[..i + 1], moduleId, firstId)
            == PdfRecords(generated[..i], moduleId, firstId) + [PdfRecord(generated[i], moduleId, firstId + i)]
  {
  }

  /** A stored generated question of the module: two to four different
      options and a correct index among them. */
  predicate GeneratedRecord(q: Question, moduleId: Id) {
    && q.owner == OfModule(moduleId) && q.origin == FromPdf && q.difficulty == "medium"
    && 2 <= |q.options| <= 4 && Distinct(q.options) && 0 <= q.correctAnswer < |q.options|
  }

  /** The records of well-formed generated questions, stored after any
      table, are well-formed questions of the module. */
  lemma PdfRecordsShape(generated: seq<GeneratedQuestion>, moduleId: Id, firstId: Id, table: seq<Question>)
    requires forall g <- generated :: QuestionService.WellFormed(g) && g.difficulty == "medium"
    ensures var all := table + PdfRecords(generated, moduleId, firstId);
            forall k :: |table| <= k < |all| ==> GeneratedRecord(all[k], moduleId)
  {
    var all := table + PdfRecords(generated, moduleId, firstId);
    forall k | |table| <= k < |all|
      ensures GeneratedRecord(all[k], moduleId)
    {
      assert all[k] == PdfRecords(generated, moduleId, firstId)[k - |table|];
      assert QuestionService.WellFormed(generated[k - |table|]);
    }
  }

  /** The records of usable generated questions are well-formed medium
      questions of the module. */
  lemma UsableRecords(generated: seq<GeneratedQuestion>, moduleId: Id, firstId: Id)
    requires forall g <- generated :: Usable(g)
    ensures forall k :: 0 <= k < |generated| ==> GeneratedRecord(PdfRecords(generated, moduleId, firstId)[k], moduleId)
  {
    forall k | 0 <= k < |generated|
      ensures GeneratedRecord(PdfRecords(generated, moduleId, firstId)[k], moduleId)
    {
      assert generated[k] in generated;
    }
  }

  /** The records stored for the questions generated from a text are all
      well-formed medium questions of the module. */
  lemma McqsRecordsShape(text: string, numQuestions: int, conceptMatches: seq<string>, dice: seq<Dice>,
                         moduleId: Id, firstId: Id)
    ensures var records := PdfRecords(Mcqs(text, numQuestions, conceptMatches, dice), moduleId, firstId);
            forall k :: 0 <= k < |records| ==> GeneratedRecord(records[k], moduleId)
  {
    McqsUsable(text, numQuestions, conceptMatches, dice);
    UsableRecords(Mcqs(text, numQuestions, conceptMatches, dice), moduleId, firstId);
  }

  /** The module as `generate_module_from_pdf` stores it: the text's first
      2000 characters as its context, no links, marked as generated. */
  function PdfModule(id: Id, courseId: Id, moduleNo: int, title: string, text: string): (m: Module)
    ensures m.id == id && m.courseId == courseId && m.moduleNo == moduleNo && m.title == title
    ensures m.context <= text && |m.context| == if |text| <= 2000 then |text| else 2000
    ensures m.videoLinks == [] && m.generatedFromPdf
  {
    Module(id, courseId, moduleNo, title, Take(text, 2000), [], true)
  }

  /** One generated question stored under a fresh id. */
  method InsertPdfQuestion(db: Db, moduleId: Id, g: GeneratedQuestion)
    requires db.Valid()
    modifies db`questions, db`nextId
    ensures db.Valid() && db.nextId == old(db.nextId) + 1
    ensures db.questions == old(db.questions) + [PdfRecord(g, moduleId, old(db.nextId))]
  {
    var id := db.NewId();
    db.questions := db.questions + [Question(id, OfModule(moduleId), g.question, g.options, g.correctAnswer,
                                             g.difficulty, FromPdf)];
  }

  /** The question-insert loop of `generate_module_from_pdf`. */
  method InsertPdfQuestions(db: Db, moduleId: Id, generated: seq<GeneratedQuestion>)
    requires db.Valid()
    requires forall g <- generated :: QuestionService.WellFormed(g) && g.difficulty == "medium"
    modifies db`questions, db`nextId
    ensures db.Valid() && db.nextId == old(db.nextId) + |generated|
    ensures db.questions == old(db.questions) + PdfRecords(generated, moduleId, old(db.nextId))
    ensures |db.questions| == |old(db.questions)| + |generated| && db.questions[..|old(db.questions)|] == old(db.questions)
    ensures forall k :: |old(db.questions)| <= k < |db.questions| ==> GeneratedRecord(db.questions[k], moduleId)
  {
    var i := 0;
    while i < |generated|
      invariant 0 <= i <= |generated| && db.Valid() && db.nextId == old(db.nextId) + i
      invariant db.questions == old(db.questions) + PdfRecords(generated[..i], moduleId, old(db.nextId))
    {
      PdfRecordsSnoc(generated, i, moduleId, old(db.nextId));
      InsertPdfQuestion(db, moduleId, generated[i]);
      i := i + 1;
    }
    assert generated[..i] == generated;
    PdfRecordsShape(generated, moduleId, old(db.nextId), old(db.questions));
  }

  /** The module document of `generate_module_from_pdf`: the next number of
      the course, the text's first 2000 characters as its context. */
  method InsertPdfModule(db: Db, text: string, courseId: Id, title: string) returns (moduleId: Id, moduleNo: int)
    requires db.Valid()
    modifies db`modules, db`nextId
    ensures db.Valid() && moduleId == old(db.nextId) && db.nextId == moduleId + 1
    ensures moduleNo == NextModuleNo(old(db.modules), courseId)
    ensures db.modules == old(db.modules) + [PdfModule(moduleId, courseId, moduleNo, title, text)]
  {
    moduleNo := NextModuleNo(db.modules, courseId);
    moduleId := db.NewId();
    db.modules := db.modules + [PdfModule(moduleId, courseId, moduleNo, title, text)];
  }

  /** The work of `generate_module_from_pdf` once the form has passed its
      checks: the module, then the questions generated from the text,
      stored under it in the generator's order. */
  method CreateGeneratedModule(db: Db, text: string, courseId: Id, title: string, numQuestions: int,
                               conceptMatches: seq<string>, dice: seq<Dice>)
    returns (g: GeneratedModule)
    requires db.Valid()
    modifies db`modules, db`questions, db`nextId
    ensures db.Valid()
    ensures && g.moduleId == old(db.nextId)
            && g.moduleNo == NextModuleNo(old(db.modules), courseId)
            && g.moduleTitle == title && g.extractedTextLength == |text|
            && db.modules == old(db.modules) + [PdfModule(old(db.nextId), courseId, g.moduleNo, title, text)]
    ensures g.questionsCreated == |Mcqs(text, numQuestions, conceptMatches, dice)| <= Max(numQuestions, 0)
    ensures db.questions
            == old(db.questions) + PdfRecords(Mcqs(text, numQuestions, conceptMatches, dice), old(db.nextId), old(db.nextId) + 1)
  {
    var moduleId, moduleNo := InsertPdfModule(db, text, courseId, title);
    assert db.questions == old(db.questions) && moduleId == old(db.nextId) && db.nextId == old(db.nextId) + 1;
    var created := GenerateQuestionsFor(db, moduleId, text, numQuestions, conceptMatches, dice);
    g := GeneratedModule(moduleId, moduleNo, title, created, |text|);
  }

  /** The questions generated from the text, stored for the module in the
      generator's order; their number is returned. */
  method GenerateQuestionsFor(db: Db, moduleId: Id, text: string, numQuestions: int,
                              conceptMatches: seq<string>, dice: seq<Dice>)
    returns (created: nat)
    requires db.Valid()
    modifies db`questions, db`nextId
    ensures db.Valid() && db.nextId == old(db.nextId) + created
    ensures created == |Mcqs(text, numQuestions, conceptMatches, dice)| <= Max(numQuestions, 0)
    ensures db.questions == old(db.questions) + PdfRecords(Mcqs(text, numQuestions, conceptMatches, dice), moduleId, old(db.nextId))
    ensures forall k :: |old(db.questions)| <= k < |db.questions| ==> GeneratedRecord(db.questions[k], moduleId)
  {
    var generated := GenerateMcqs(text, numQuestions, conceptMatches, dice);
    InsertPdfQuestions(db, moduleId, generated);
    created := |generated|;
  }

  /** `POST /admin/pdf/generate-module`. */
  method GenerateModuleFromPdf(db: Db, form: PdfForm, conceptMatches: seq<string>, dice: seq<Dice>)
    returns (r: Response<GeneratedModule>)
    requires db.Valid()
    modifies db`modules, db`questions, db`nextId
    ensures db.Valid()
    ensures PdfFormError(form).Some? ==> r == PdfFormError(form).value && unchanged(db)
    ensures PdfFormError(form).None? ==> r.Ok?
    ensures PdfFormError(form).None? && r.Ok? ==>
              var text := form.file.value;
              var courseId := form.courseId.value.id;
              && r.value.moduleId == old(db.nextId)
              && r.value.moduleNo == NextModuleNo(old(db.modules), courseId)
              && r.value.moduleTitle == form.moduleTitle.GetOr("Auto-Generated Module")
              && r.value.extractedTextLength == |text|
              && db.modules == old(db.modules)
                   + [PdfModule(old(db.nextId), courseId, r.value.moduleNo, r.value.moduleTitle, text)]
    ensures PdfFormError(form).None? && r.Ok? ==>
              r.value.questionsCreated == |Mcqs(form.file.value, form.numQuestions.GetOr(10), conceptMatches, dice)|
                                       <= Max(form.numQuestions.GetOr(10), 0)
    ensures PdfFormError(form).None? && r.Ok? ==>
              db.questions == old(db.questions) + PdfRecords(Mcqs(form.file.value, form.numQuestions.GetOr(10),
                                                                   conceptMatches, dice), old(db.nextId), old(db.nextId) + 1)
  {
    var error := PdfFormError(form);
    if error.Some? {
      return error.value;
    }
    ghost var generated := Mcqs(form.file.value, form.numQuestions.GetOr(10), conceptMatches, dice);
    var g := CreateGeneratedModule(db, form.file.value, form.courseId.value.id,
                                   form.moduleTitle.GetOr("Auto-Generated Module"), form.numQuestions.GetOr(10),
                                   conceptMatches, dice);
    assert db.questions == old(db.questions) + PdfRecords(generated, old(db.nextId), old(db.nextId) + 1);
    r := Ok(g);
  }
}
