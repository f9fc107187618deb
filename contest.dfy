/** `contest_routes.py`: joining a contest, submitting answers (scoring,
    leaderboard upsert, rank recomputation, the winner badge), reading a
    student's result and reading the contest leaderboard. */
module ContestRoutes {
  import opened Common
  import opened Store
  import opened Models
  import opened Ranking

  /** One submitted answer; `selectedOption` is -1 when the key is absent. */
  datatype ContestAnswer = ContestAnswer(questionId: Option<Id>, selectedOption: int)

  /** The JSON body of a submission; `None` marks a missing key. The
      student id is the text sent, which `ObjectId(...)` may reject. */
  datatype Submission = Submission(studentId: Option<RawId>, answers: Option<seq<ContestAnswer>>)

  /** `int(x)` on a float: truncation toward zero. */
  function Trunc(x: real): (n: int)
    ensures n as real <= x < n as real + 1.0 || n as real - 1.0 < x <= n as real
    ensures x >= 0.0 ==> 0 <= n && n as real <= x
    ensures x < 0.0 ==> n <= 0 && x <= n as real
  {
    if x >= 0.0 then x.Floor else -((-x).Floor)
  }

  // ---------------------------------------------------------------------
  // Scoring

  /** The running state of the scoring loop. */
  datatype Tally = Tally(score: real, correct: nat, wrong: nat, processed: seq<ProcessedAnswer>)

  /** The answer names a question of the contest's modules. */
  predicate Known(qmap: map<Id, Question>, a: ContestAnswer) {
    a.questionId.Some? && a.questionId.value in qmap
  }

  /** Graded records that count as correct. */
  function CountCorrect(ps: seq<ProcessedAnswer>): nat {
    if ps == [] then 0
    else CountCorrect(ps[..|ps| - 1]) + (if ps[|ps| - 1].isCorrect then 1 else 0)
  }

  /** Graded records that were answered (selected option not -1) but wrong. */
  function CountWrong(ps: seq<ProcessedAnswer>): nat {
    if ps == [] then 0
    else CountWrong(ps[..|ps| - 1]) + (if !ps[|ps| - 1].isCorrect && ps[|ps| - 1].selectedOption != -1 then 1 else 0)
  }

  /** The scoring loop over the answers, in submission order. */
  function TallyOf(qmap: map<Id, Question>, answers: seq<ContestAnswer>, marks: int, negative: real): (t: Tally)
    ensures |t.processed| <= |answers|
    ensures forall k :: 0 <= k < |t.processed| ==>
              var p := t.processed[k];
              p.questionId in qmap && (p.isCorrect <==> p.selectedOption == qmap[p.questionId].correctAnswer)
  {
    if answers == [] then Tally(0.0, 0, 0, [])
    else
      var t := TallyOf(qmap, answers[..|answers| - 1], marks, negative);
      var a := answers[|answers| - 1];
      if !Known(qmap, a) then t
      else
        var id := a.questionId.value;
        var isCorrect := a.selectedOption == qmap[id].correctAnswer;
        var p := t.processed + [ProcessedAnswer(id, a.selectedOption, isCorrect)];
        if isCorrect then Tally(t.score + marks as real, t.correct + 1, t.wrong, p)
        else if a.selectedOption != -1 then Tally(t.score - negative, t.correct, t.wrong + 1, p)
        else Tally(t.score, t.correct, t.wrong, p)
  }

  /** The loop's counters count the graded records that are correct and
      those that were answered (selected option not -1) but wrong. */
  lemma {:induction false} TallyCounts(qmap: map<Id, Question>, answers: seq<ContestAnswer>, marks: int, negative: real)
    ensures var t := TallyOf(qmap, answers, marks, negative);
            t.correct == CountCorrect(t.processed) && t.wrong == CountWrong(t.processed)
  {
    if answers != [] {
      var init := answers[..|answers| - 1];
      TallyCounts(qmap, init, marks, negative);
      var t := TallyOf(qmap, init, marks, negative);
      var r := TallyOf(qmap, answers, marks, negative);
      var a := answers[|answers| - 1];
      if Known(qmap, a) {
        var id := a.questionId.value;
        var x := ProcessedAnswer(id, a.selectedOption, a.selectedOption == qmap[id].correctAnswer);
        assert r.processed == t.processed + [x];
        CountsSnoc(t.processed, x);
        assert r.correct == t.correct + (if x.isCorrect then 1 else 0);
        assert r.wrong == t.wrong + (if !x.isCorrect && x.selectedOption != -1 then 1 else 0);
      } else {
        assert r == t;
      }
    }
  }

  lemma CountsSnoc(ps: seq<ProcessedAnswer>, x: ProcessedAnswer)
    ensures CountCorrect(ps + [x]) == CountCorrect(ps) + (if x.isCorrect then 1 else 0)
    ensures CountWrong(ps + [x]) == CountWrong(ps) + (if !x.isCorrect && x.selectedOption != -1 then 1 else 0)
  {
    assert (ps + [x])[..|ps|] == ps;
  }

  /** `n * x` as repeated addition, the way the loop accumulates it. */
  function Times(n: nat, x: real): real {
    if n == 0 then 0.0 else Times(n - 1, x) + x
  }

  lemma MulSucc(n: nat, x: real)
    ensures (n + 1) as real * x == n as real * x + x
  {
  }

  lemma {:induction false} TimesIsProduct(n: nat, x: real)
    ensures Times(n, x) == n as real * x
  {
    if n > 0 {
      TimesIsProduct(n - 1, x);
      MulSucc(n - 1, x);
    }
  }

  /** The running score is marks times the correct count less the penalty
      times the answered-but-wrong count. */
  lemma {:induction false} TallyScore(qmap: map<Id, Question>, answers: seq<ContestAnswer>, marks: int, negative: real)
    ensures var t := TallyOf(qmap, answers, marks, negative);
            t.score == Times(t.correct, marks as real) - Times(t.wrong, negative)
  {
    if answers != [] {
      TallyScore(qmap, answers[..|answers| - 1], marks, negative);
    }
  }

  /** An answer whose question is not in the contest's modules leaves the
      tally as it was. */
  lemma UnknownAnswerIgnored(qmap: map<Id, Question>, answers: seq<ContestAnswer>, a: ContestAnswer, marks: int, negative: real)
    requires !Known(qmap, a)
    ensures TallyOf(qmap, answers + [a], marks, negative) == TallyOf(qmap, answers, marks, negative)
  {
    assert (answers + [a])[..|answers|] == answers;
  }

  /** Each known answer adds exactly one graded record, at the end. */
  lemma {:induction false} KnownAnswerRecorded(qmap: map<Id, Question>, answers: seq<ContestAnswer>, a: ContestAnswer, marks: int, negative: real)
    requires Known(qmap, a)
    ensures var before := TallyOf(qmap, answers, marks, negative);
            var id := a.questionId.value;
            TallyOf(qmap, answers + [a], marks, negative).processed
              == before.processed + [ProcessedAnswer(id, a.selectedOption, a.selectedOption == qmap[id].correctAnswer)]
  {
    assert (answers + [a])[..|answers|] == answers;
  }

  function RealMax(a: real, b: real): real {
    if a >= b then a else b
  }

  /** The scoring loop of `submit_contest`: the stored score is the tally
      floored at zero, and the graded records are the tally's. */
  method ScoreAnswers(qmap: map<Id, Question>, answers: seq<ContestAnswer>, marks: int, negative: real)
    returns (score: real, processed: seq<ProcessedAnswer>)
    ensures var t := TallyOf(qmap, answers, marks, negative);
            score == RealMax(t.score, 0.0) && processed == t.processed
    ensures score >= 0.0
  {
    score := 0.0;
    var correct, wrong := 0, 0;
    processed := [];
    var i := 0;
    while i < |answers|
      invariant 0 <= i <= |answers|
      invariant Tally(score, correct, wrong, processed) == TallyOf(qmap, answers[..i], marks, negative)
    {
      assert answers[..i + 1][..i] == answers[..i];
      var a := answers[i];
      if a.questionId.Some? && a.questionId.value in qmap {
        var q := qmap[a.questionId.value];
        var isCorrect := a.selectedOption == q.correctAnswer;
        if isCorrect {
          score := score + marks as real;
          correct := correct + 1;
        } else if a.selectedOption != -1 {
          score := score - negative;
          wrong := wrong + 1;
        }
        processed := processed + [ProcessedAnswer(a.questionId.value, a.selectedOption, isCorrect)];
      }
      i := i + 1;
    }
    assert answers[..i] == answers;
    score := RealMax(score, 0.0);
  }

  /** The questions a contest is scored against: those of its modules. The
      custom questions written with the contest belong to the contest, not
      to a module, so they are not among them. */
  function ContestQuestionMap(questions: seq<Question>, contest: Contest): map<Id, Question> {
    QuestionIndex(Filter(questions, InModules, contest.moduleIds))
  }

  // ---------------------------------------------------------------------
  // Leaderboard upserts

  /** The first leaderboard entry of `student` in `contest`. */
  function FindEntry(lb: seq<Entry>, contest: Id, student: Id): (r: Option<nat>)
    ensures r.Some? ==> r.value < |lb| && lb[r.value].contestId == contest && lb[r.value].studentId == student
    ensures r.Some? ==> forall j :: 0 <= j < r.value ==> !(lb[j].contestId == contest && lb[j].studentId == student)
    ensures r.None? <==> forall j :: 0 <= j < |lb| ==> !(lb[j].contestId == contest && lb[j].studentId == student)
  {
    if lb == [] then None
    else if lb[0].contestId == contest && lb[0].studentId == student then Some(0)
    else match FindEntry(lb[1..], contest, student)
      case None => None
      case Some(k) => Some(k + 1)
  }

  /** Two tables whose entries belong to the same (contest, student) pairs
      position by position give the same first match. */
  lemma FindEntrySame(a: seq<Entry>, b: seq<Entry>, contest: Id, student: Id)
    requires |a| == |b|
    requires forall i :: 0 <= i < |a| ==> a[i].contestId == b[i].contestId && a[i].studentId == b[i].studentId
    ensures FindEntry(a, contest, student) == FindEntry(b, contest, student)
  {
    var x, y := FindEntry(a, contest, student), FindEntry(b, contest, student);
    if x.Some? && y.Some? {
      assert !(x.value < y.value) && !(y.value < x.value);
    }
  }

  /** An entry appended to a table without a match is the first match. */
  lemma FindEntryAppended(lb: seq<Entry>, e: Entry, contest: Id, student: Id)
    requires FindEntry(lb, contest, student).None?
    requires e.contestId == contest && e.studentId == student
    ensures FindEntry(lb + [e], contest, student) == Some(|lb|)
    decreases |lb|
  {
    if lb != [] {
      assert FindEntry(lb[1..], contest, student).None?;
      FindEntryAppended(lb[1..], e, contest, student);
      assert (lb + [e])[1..] == lb[1..] + [e];
    }
  }

  /** The join upsert: a fresh entry (score 0, time 0, no rank) only when the
      student has none in the contest. */
  function Joined(lb: seq<Entry>, contest: Id, student: Id, newId: Id): (r: seq<Entry>)
    ensures FindEntry(lb, contest, student).Some? ==> r == lb
    ensures FindEntry(lb, contest, student).None? ==>
              r == lb + [Entry(newId, contest, student, 0.0, Some(0), None, [], None, false)]
    ensures FindEntry(r, contest, student).Some?
  {
    if FindEntry(lb, contest, student).Some? then lb
    else
      var r := lb + [Entry(newId, contest, student, 0.0, Some(0), None, [], None, false)];
      assert r[|lb|].contestId == contest && r[|lb|].studentId == student;
      r
  }

  /** Joining twice is joining once. */
  lemma JoinIdempotent(lb: seq<Entry>, contest: Id, student: Id, id1: Id, id2: Id)
    ensures Joined(Joined(lb, contest, student, id1), contest, student, id2) == Joined(lb, contest, student, id1)
  {
  }

  /** The submit upsert: score, graded answers, submission time and the
      submitted flag are set; time taken and rank are left as they were (and
      are absent on a freshly inserted entry). */
  function Submitted(lb: seq<Entry>, contest: Id, student: Id, score: real, processed: seq<ProcessedAnswer>,
                     now: Time, newId: Id): (r: seq<Entry>)
    ensures FindEntry(lb, contest, student).Some? ==>
              var k := FindEntry(lb, contest, student).value;
              r == lb[k := lb[k].(score := score, answers := processed, submittedAt := Some(now), isSubmitted := true)]
    ensures FindEntry(lb, contest, student).None? ==>
              r == lb + [Entry(newId, contest, student, score, None, None, processed, Some(now), true)]
  {
    match FindEntry(lb, contest, student)
    case Some(k) => lb[k := lb[k].(score := score, answers := processed, submittedAt := Some(now), isSubmitted := true)]
    case None => lb + [Entry(newId, contest, student, score, None, None, processed, Some(now), true)]
  }

  /** After a submission the student's entry holds what was submitted, and
      its time taken is whatever the entry held before. */
  lemma {:induction false} SubmittedEntry(lb: seq<Entry>, contest: Id, student: Id, score: real,
                                          processed: seq<ProcessedAnswer>, now: Time, newId: Id)
    ensures var r := Submitted(lb, contest, student, score, processed, now, newId);
            var k := FindEntry(r, contest, student);
            && k.Some?
            && r[k.value].score == score && r[k.value].answers == processed
            && r[k.value].submittedAt == Some(now) && r[k.value].isSubmitted
            && r[k.value].timeTaken == (match FindEntry(lb, contest, student)
                                        case Some(j) => lb[j].timeTaken
                                        case None => None)
  {
    var r := Submitted(lb, contest, student, score, processed, now, newId);
    match FindEntry(lb, contest, student)
    case Some(j) =>
      FindEntrySame(lb, r, contest, student);
    case None =>
      FindEntryAppended(lb, r[|lb|], contest, student);
  }

  /** A resubmission overwrites the earlier submission. */
  lemma {:induction false} ResubmissionOverwrites(lb: seq<Entry>, contest: Id, student: Id,
                                                  s1: real, p1: seq<ProcessedAnswer>, t1: Time, id1: Id,
                                                  s2: real, p2: seq<ProcessedAnswer>, t2: Time, id2: Id)
    ensures Submitted(Submitted(lb, contest, student, s1, p1, t1, id1), contest, student, s2, p2, t2, id2)
         == Submitted(lb, contest, student, s2, p2, t2, id1)
  {
    var r := Submitted(lb, contest, student, s1, p1, t1, id1);
    match FindEntry(lb, contest, student)
    case Some(j) =>
      FindEntrySame(lb, r, contest, student);
    case None =>
      FindEntryAppended(lb, r[|lb|], contest, student);
  }

  // ---------------------------------------------------------------------
  // Ranks

  /** The positions of the contest's entries, in stored order. */
  function ContestPositions(lb: seq<Entry>, contest: Id): (ps: seq<nat>)
    ensures forall k :: 0 <= k < |ps| ==> ps[k] < |lb| && lb[ps[k]].contestId == contest
    ensures forall i :: 0 <= i < |lb| && lb[i].contestId == contest ==> i in ps
    ensures forall i, j :: 0 <= i < j < |ps| ==> ps[i] < ps[j]
  {
    if lb == [] then []
    else
      var ps := ContestPositions(lb[..|lb| - 1], contest);
      if lb[|lb| - 1].contestId == contest then ps + [|lb| - 1] else ps
  }

  /** Rank order: by truncated score, highest first (ties in stored order). */
  function RankKeys(lb: seq<Entry>): (keys: seq<Key>)
    ensures |keys| == |lb|
    ensures forall k :: 0 <= k < |lb| ==> keys[k] == Key(-Trunc(lb[k].score), 0)
  {
    seq(|lb|, k requires 0 <= k < |lb| => Key(-Trunc(lb[k].score), 0))
  }

  /** The contest's entries after `entries.sort(key=-int(score))`. */
  function RankOrder(lb: seq<Entry>, contest: Id): (order: seq<nat>)
    ensures InRange(RankKeys(lb), order) && |order| == |ContestPositions(lb, contest)|
  {
    var order := SortPositions(RankKeys(lb), ContestPositions(lb, contest));
    assert |multiset(order)| == |order|;
    order
  }

  /** Rank `p + 1` written to the entry at `order[p]`, one after another. */
  function ApplyRanks(lb: seq<Entry>, order: seq<nat>): (r: seq<Entry>)
    requires forall k :: 0 <= k < |order| ==> order[k] < |lb|
    ensures |r| == |lb|
    ensures forall k :: 0 <= k < |lb| ==> r[k] == lb[k].(rank := r[k].rank)
  {
    if order == [] then lb
    else
      var n := |order| - 1;
      var prev := ApplyRanks(lb, order[..n]);
      prev[order[n] := prev[order[n]].(rank := Some(n + 1))]
  }

  /** Each listed entry gets its place in the list as rank; the others keep theirs. */
  lemma {:induction false} RanksAssigned(lb: seq<Entry>, order: seq<nat>)
    requires forall k :: 0 <= k < |order| ==> order[k] < |lb|
    requires Distinct(order)
    ensures forall p :: 0 <= p < |order| ==> ApplyRanks(lb, order)[order[p]].rank == Some(p + 1)
    ensures forall k :: 0 <= k < |lb| && k !in order ==> ApplyRanks(lb, order)[k] == lb[k]
  {
    if order != [] {
      var n := |order| - 1;
      RanksAssigned(lb, order[..n]);
      forall p | 0 <= p < n ensures order[p] != order[n] {
      }
      forall k | 0 <= k < |lb| && k !in order ensures k !in order[..n] {
      }
    }
  }

  lemma ContestPositionsDistinct(lb: seq<Entry>, contest: Id)
    ensures Distinct(ContestPositions(lb, contest))
  {
  }

  /** The sorted positions are exactly the contest's positions, once each. */
  lemma RankOrderIsContest(lb: seq<Entry>, contest: Id)
    ensures Distinct(RankOrder(lb, contest))
    ensures forall k :: 0 <= k < |lb| ==> (k in RankOrder(lb, contest) <==> lb[k].contestId == contest)
  {
    var ps := ContestPositions(lb, contest);
    var order := RankOrder(lb, contest);
    ContestPositionsDistinct(lb, contest);
    SortDistinct(RankKeys(lb), ps);
    assert forall k :: k in order <==> k in multiset(ps);
  }

  /** The leaderboard after the rank recomputation of `contest`. */
  function RankContest(lb: seq<Entry>, contest: Id): (r: seq<Entry>)
    ensures |r| == |lb|
    ensures forall k :: 0 <= k < |lb| ==> r[k] == lb[k].(rank := r[k].rank)
    ensures forall k :: 0 <= k < |lb| && lb[k].contestId != contest ==> r[k] == lb[k]
    ensures forall k :: 0 <= k < |lb| && lb[k].contestId == contest ==>
              r[k].rank.Some? && 1 <= r[k].rank.value <= |ContestPositions(lb, contest)|
  {
    var order := RankOrder(lb, contest);
    RankOrderIsContest(lb, contest);
    RanksAssigned(lb, order);
    ApplyRanks(lb, order)
  }

  /** Ranks follow the sort: an entry with a higher truncated score, or an
      equal one and an earlier stored position, gets the smaller rank. So
      the contest's ranks are 1..n, each used once. */
  lemma RankContestOrdered(lb: seq<Entry>, contest: Id, i: nat, j: nat)
    requires i < |lb| && j < |lb| && lb[i].contestId == contest && lb[j].contestId == contest
    requires Trunc(lb[i].score) > Trunc(lb[j].score) || (Trunc(lb[i].score) == Trunc(lb[j].score) && i < j)
    ensures RankContest(lb, contest)[i].rank.value < RankContest(lb, contest)[j].rank.value
  {
    var keys := RankKeys(lb);
    var order := RankOrder(lb, contest);
    RankOrderIsContest(lb, contest);
    SortOrdered(keys, ContestPositions(lb, contest));
    RanksAssigned(lb, order);
    var p :| 0 <= p < |order| && order[p] == i;
    var q :| 0 <= q < |order| && order[q] == j;
    assert Precedes(keys, i, j);
    assert p != q;
  }

  // ---------------------------------------------------------------------
  // The winner badge

  /** `$addToSet` of 'Contest Winner' on the first user with the id. */
  function AwardWinner(users: seq<User>, student: Id): (r: seq<User>)
    ensures |r| == |users|
    ensures Find(users, IdOfUser, student).None? ==> r == users
    ensures Find(users, IdOfUser, student).Some? ==>
              var k := Find(users, IdOfUser, student).value;
              && r[k].badges == users[k].badges + {BadgeContestWinner}
              && r[k] == users[k].(badges := r[k].badges)
              && forall j :: 0 <= j < |users| && j != k ==> r[j] == users[j]
  {
    match Find(users, IdOfUser, student)
    case None => users
    case Some(k) => users[k := users[k].(badges := users[k].badges + {BadgeContestWinner})]
  }

  /** The badge is a set member: awarding it again changes nothing. */
  lemma {:induction false} AwardWinnerIdempotent(users: seq<User>, student: Id)
    ensures AwardWinner(AwardWinner(users, student), student) == AwardWinner(users, student)
  {
    var r := AwardWinner(users, student);
    assert forall j :: 0 <= j < |users| ==> IdOfUser(r[j]) == IdOfUser(users[j]);
    assert Find(r, IdOfUser, student) == Find(users, IdOfUser, student);
  }

  // ---------------------------------------------------------------------
  // Handlers

  /** `POST /contests/join/<contest_id>`. The contest itself is not looked
      up; a student id that `ObjectId(...)` rejects raises in the upsert's
      filter, before anything is written. */
  method JoinContest(db: Db, contest: Id, student: Option<RawId>) returns (r: Response<string>)
    requires db.Valid()
    modifies db`leaderboard, db`nextId
    ensures db.Valid()
    ensures !Truthy(student) ==> r == Err(400, "Missing studentId") && unchanged(db)
    ensures Truthy(student) && student.value.BadIdText? ==> r == Err(500, ServerError) && unchanged(db)
    ensures student.Some? && student.value.ObjectIdText? ==>
              && r == Ok("joined")
              && db.leaderboard == Joined(old(db.leaderboard), contest, student.value.id, old(db.nextId))
  {
    if !Truthy(student) {
      return Err(400, "Missing studentId");
    }
    if student.value.BadIdText? {
      return Err(500, ServerError);
    }
    var found := FindEntry(db.leaderboard, contest, student.value.id);
    if found.None? {
      var id := db.NewId();
      db.leaderboard := db.leaderboard + [Entry(id, contest, student.value.id, 0.0, Some(0), None, [], None, false)];
    }
    r := Ok("joined");
  }

  /** The rank-writing loop: rank `p + 1` for the entry at `order[p]`. */
  method WriteRanks(lb: seq<Entry>, order: seq<nat>) returns (r: seq<Entry>)
    requires forall k :: 0 <= k < |order| ==> order[k] < |lb|
    ensures r == ApplyRanks(lb, order)
  {
    r := lb;
    var i := 0;
    while i < |order|
      invariant 0 <= i <= |order|
      invariant r == ApplyRanks(lb, order[..i])
    {
      assert order[..i + 1][..i] == order[..i];
      var e := r[order[i]];
      r := r[order[i] := e.(rank := Some(i + 1))];
      i := i + 1;
    }
    assert order[..i] == order;
  }

  /** Rewriting ranks keeps every id, so ids stay below the counter. */
  lemma RanksKeepIds(lb: seq<Entry>, r: seq<Entry>, bound: nat)
    requires |r| == |lb| && forall k :: 0 <= k < |lb| ==> r[k] == lb[k].(rank := r[k].rank)
    requires forall e <- lb :: e.id < bound
    ensures forall e <- r :: e.id < bound
  {
    forall e | e in r ensures e.id < bound {
      var k :| 0 <= k < |r| && r[k] == e;
      assert lb[k] in lb;
    }
  }

  /** The rank recomputation: the contest's entries are sorted, then ranks
      1..n are written in that order. */
  method RecomputeRanks(db: Db, contest: Id) returns (order: seq<nat>)
    requires db.Valid()
    modifies db`leaderboard
    ensures db.Valid()
    ensures order == RankOrder(old(db.leaderboard), contest)
    ensures db.leaderboard == RankContest(old(db.leaderboard), contest)
  {
    var lb := db.leaderboard;
    order := SortPositions(RankKeys(lb), ContestPositions(lb, contest));
    var ranked := WriteRanks(lb, order);
    RanksKeepIds(lb, ranked, db.nextId);
    db.leaderboard := ranked;
  }

  /** The submit upsert on the stored leaderboard. */
  method UpsertSubmission(db: Db, contest: Id, student: Id, score: real, processed: seq<ProcessedAnswer>, now: Time)
    requires db.Valid()
    modifies db`leaderboard, db`nextId
    ensures db.Valid()
    ensures db.leaderboard == Submitted(old(db.leaderboard), contest, student, score, processed, now, old(db.nextId))
  {
    var k := FindEntry(db.leaderboard, contest, student);
    if k.Some? {
      var e := db.leaderboard[k.value];
      db.leaderboard := db.leaderboard[k.value := e.(score := score, answers := processed,
                                                    submittedAt := Some(now), isSubmitted := true)];
    } else {
      var id := db.NewId();
      db.leaderboard := db.leaderboard + [Entry(id, contest, student, score, None, None, processed, Some(now), true)];
    }
  }

  /** The winner badge update on the stored users. */
  method AwardWinnerTo(db: Db, student: Id)
    requires db.Valid()
    modifies db`users
    ensures db.Valid()
    ensures db.users == AwardWinner(old(db.users), student)
  {
    var u := Find(db.users, IdOfUser, student);
    if u.Some? {
      var user := db.users[u.value];
      ghost var before := db.users;
      db.users := db.users[u.value := user.(badges := user.badges + {BadgeContestWinner})];
      forall x | x in db.users ensures x.id < db.nextId {
        var k :| 0 <= k < |db.users| && db.users[k] == x;
        assert before[k] in before;
      }
    }
  }

  /** The tables a graded submission writes: the upsert, the ranks, and the
      winner badge for the student of the first sorted entry. */
  method RecordSubmission(db: Db, contest: Id, student: Id, score: real, processed: seq<ProcessedAnswer>, now: Time)
    requires db.Valid()
    modifies db`leaderboard, db`nextId, db`users
    ensures db.Valid()
    ensures var lb := Submitted(old(db.leaderboard), contest, student, score, processed, now, old(db.nextId));
            && db.leaderboard == RankContest(lb, contest)
            && db.users == (if RankOrder(lb, contest) == [] then old(db.users)
                            else AwardWinner(old(db.users), lb[RankOrder(lb, contest)[0]].studentId))
  {
    UpsertSubmission(db, contest, student, score, processed, now);
    var entries := db.leaderboard;
    var order := RecomputeRanks(db, contest);
    if order != [] {
      AwardWinnerTo(db, entries[order[0]].studentId);
    }
  }

  /** The graded score of a submission to the contest at `contests[k]`. */
  function SubmissionTally(contests: seq<Contest>, questions: seq<Question>, k: nat, body: Submission): Tally
    requires k < |contests|
  {
    var c := contests[k];
    TallyOf(ContestQuestionMap(questions, c), body.answers.GetOr([]), c.marksPerQuestion, c.negativeMarking)
  }

  /** `POST /contests/submit/<contest_id>`. A student id that
      `ObjectId(...)` rejects raises at the leaderboard upsert, after the
      contest lookup and the scoring and before anything is written. */
  method SubmitContest(db: Db, contest: Id, body: Submission, now: Time) returns (r: Response<real>)
    requires db.Valid()
    modifies db`leaderboard, db`nextId, db`users
    ensures db.Valid()
    ensures !Truthy(body.studentId) ==> r == Err(400, "Missing studentId") && unchanged(db)
    ensures Truthy(body.studentId) && Find(old(db.contests), IdOfContest, contest).None? ==>
              r == Err(404, "Contest not found") && unchanged(db)
    ensures Truthy(body.studentId) && body.studentId.value.BadIdText?
            && Find(old(db.contests), IdOfContest, contest).Some? ==>
              r == Err(500, ServerError) && unchanged(db)
    ensures body.studentId.Some? && body.studentId.value.ObjectIdText?
            && Find(old(db.contests), IdOfContest, contest).Some? ==>
              var t := SubmissionTally(old(db.contests), old(db.questions),
                                       Find(old(db.contests), IdOfContest, contest).value, body);
              var score := RealMax(t.score, 0.0);
              var lb := Submitted(old(db.leaderboard), contest, body.studentId.value.id, score, t.processed, now,
                                  old(db.nextId));
              && r == Ok(score)
              && db.leaderboard == RankContest(lb, contest)
              && db.users == (if RankOrder(lb, contest) == [] then old(db.users)
                              else AwardWinner(old(db.users), lb[RankOrder(lb, contest)[0]].studentId))
  {
    if !Truthy(body.studentId) {
      return Err(400, "Missing studentId");
    }
    var found := Find(db.contests, IdOfContest, contest);
    if found.None? {
      return Err(404, "Contest not found");
    }
    var c := db.contests[found.value];
    var qmap := BuildQuestionMap(Filter(db.questions, InModules, c.moduleIds));
    var score, processed := ScoreAnswers(qmap, body.answers.GetOr([]), c.marksPerQuestion, c.negativeMarking);
    if body.studentId.value.BadIdText? {
      return Err(500, ServerError);
    }
    RecordSubmission(db, contest, body.studentId.value.id, score, processed, now);
    r := Ok(score);
  }

  // ---------------------------------------------------------------------
  // Reads

  /** A graded answer with the question's correct option, when the question
      still exists. */
  datatype ReviewedAnswer = ReviewedAnswer(questionId: Id, selectedOption: int, isCorrect: bool, correctOption: Option<int>)

  /** `GET /contests/result/<contest_id>/<student_id>`. */
  datatype ContestResult =
    | NotAttempted
    | JoinedOnly(score: real, rank: Option<int>, answers: seq<ProcessedAnswer>)
    | SubmittedResult(score: real, rank: Option<int>, review: seq<ReviewedAnswer>)

  function Review(a: ProcessedAnswer, qmap: map<Id, Question>): ReviewedAnswer {
    ReviewedAnswer(a.questionId, a.selectedOption, a.isCorrect,
                   if a.questionId in qmap then Some(qmap[a.questionId].correctAnswer) else None)
  }

  function AnswerIds(answers: seq<ProcessedAnswer>): (ids: seq<Id>)
    ensures |ids| == |answers| && forall k :: 0 <= k < |ids| ==> ids[k] == answers[k].questionId
  {
    seq(|answers|, k requires 0 <= k < |answers| => answers[k].questionId)
  }

  /** The review of one answer: the stored grading, and the correct option
      of a question with that id when there is one. */
  predicate Reviewed(a: ReviewedAnswer, p: ProcessedAnswer, questions: seq<Question>) {
    && a.questionId == p.questionId
    && a.selectedOption == p.selectedOption
    && a.isCorrect == p.isCorrect
    && (a.correctOption.Some? <==> exists q :: q in questions && q.id == a.questionId)
    && (a.correctOption.Some? ==>
          exists q :: q in questions && q.id == a.questionId && q.correctAnswer == a.correctOption.value)
  }

  /** Looking an answer up in the map of the questions it names. */
  lemma ReviewOne(p: ProcessedAnswer, ids: seq<Id>, questions: seq<Question>)
    requires p.questionId in ids
    ensures Reviewed(Review(p, QuestionIndex(Filter(questions, IdIn, ids))), p, questions)
  {
    var sub := Filter(questions, IdIn, ids);
    var qmap := QuestionIndex(sub);
    assert forall q :: q in questions && q.id == p.questionId ==> q in sub;
    if p.questionId in qmap {
      assert qmap[p.questionId] in questions;
    }
  }

  /** The answers of a submitted entry with their correct options. */
  function ReviewAnswers(answers: seq<ProcessedAnswer>, questions: seq<Question>): (rv: seq<ReviewedAnswer>)
    ensures |rv| == |answers|
    ensures forall k :: 0 <= k < |rv| ==> Reviewed(rv[k], answers[k], questions)
  {
    var ids := AnswerIds(answers);
    var qmap := QuestionIndex(Filter(questions, IdIn, ids));
    var rv := seq(|answers|, i requires 0 <= i < |answers| => Review(answers[i], qmap));
    forall k | 0 <= k < |rv|
      ensures Reviewed(rv[k], answers[k], questions)
    {
      assert ids[k] == answers[k].questionId;
      ReviewOne(answers[k], ids, questions);
    }
    rv
  }

  function ContestResultOf(lb: seq<Entry>, questions: seq<Question>, contest: Id, student: Id): (r: ContestResult)
    ensures r.NotAttempted? <==> FindEntry(lb, contest, student).None?
    ensures FindEntry(lb, contest, student).Some? ==>
              var e := lb[FindEntry(lb, contest, student).value];
              && (r.SubmittedResult? <==> e.isSubmitted)
              && r.score == e.score && r.rank == e.rank
              && (r.JoinedOnly? ==> r.answers == e.answers)
              && (r.SubmittedResult? ==>
                    && |r.review| == |e.answers|
                    && forall k :: 0 <= k < |r.review| ==> Reviewed(r.review[k], e.answers[k], questions))
  {
    match FindEntry(lb, contest, student)
    case None => NotAttempted
    case Some(k) =>
      var e := lb[k];
      if !e.isSubmitted then JoinedOnly(e.score, e.rank, e.answers)
      else SubmittedResult(e.score, e.rank, ReviewAnswers(e.answers, questions))
  }

  /** `contest_leaderboard` order: by truncated score, highest first, then by
      time taken (0 when absent), ties in stored order. */
  function BoardKeys(lb: seq<Entry>): (keys: seq<Key>)
    ensures |keys| == |lb|
    ensures forall k :: 0 <= k < |lb| ==> keys[k] == Key(-Trunc(lb[k].score), lb[k].timeTaken.GetOr(0))
  {
    seq(|lb|, k requires 0 <= k < |lb| => Key(-Trunc(lb[k].score), lb[k].timeTaken.GetOr(0)))
  }

  /** `a` must be listed after `b` on the leaderboard. */
  predicate RanksBelow(a: Entry, b: Entry) {
    || Trunc(a.score) < Trunc(b.score)
    || (Trunc(a.score) == Trunc(b.score) && a.timeTaken.GetOr(0) > b.timeTaken.GetOr(0))
  }

  predicate InContest(e: Entry, contest: Id) { e.contestId == contest }

  /** The stored positions of the contest's entries in leaderboard order:
      each listed once, by board key, and entries whose keys tie keep the
      order they are stored in, as Python's stable `list.sort` keeps it. */
  function BoardPositions(lb: seq<Entry>, contest: Id): (order: seq<nat>)
    ensures InRange(BoardKeys(lb), order)
    ensures multiset(order) == multiset(ContestPositions(lb, contest))
    ensures Distinct(order) && Ordered(BoardKeys(lb), order)
    ensures forall p, q :: 0 <= p < q < |order| && BoardKeys(lb)[order[p]] == BoardKeys(lb)[order[q]] ==>
      order[p] < order[q]
  {
    var keys := BoardKeys(lb);
    var ps := ContestPositions(lb, contest);
    ContestPositionsDistinct(lb, contest);
    SortOrdered(keys, ps);
    SortDistinct(keys, ps);
    SortPositions(keys, ps)
  }

  /** `GET /contests/leaderboard/<contest_id>`: the contest's entries,
      rearranged so that no entry is listed above one it ranks below, and
      listed at their stored positions in board order, so ties stay in the
      order they are stored in. */
  function Leaderboard(lb: seq<Entry>, contest: Id): (r: seq<Entry>)
    ensures multiset(r) == multiset(Filter(lb, InContest, contest))
    ensures forall p, q :: 0 <= p < q < |r| ==> !RanksBelow(r[p], r[q])
    ensures r == Select(lb, BoardPositions(lb, contest))
  {
    var keys := BoardKeys(lb);
    var ps := ContestPositions(lb, contest);
    var order := BoardPositions(lb, contest);
    SelectSort(lb, keys, ps);
    ContestEntries(lb, contest);
    BoardOrder(lb, order);
    Select(lb, order)
  }

  /** An entry that ranks below another has the later board key. */
  lemma RanksBelowPrecedes(lb: seq<Entry>, i: nat, j: nat)
    requires i < |lb| && j < |lb| && RanksBelow(lb[i], lb[j])
    ensures Precedes(BoardKeys(lb), j, i)
  {
  }

  /** Positions in board-key order list no entry above one it ranks below. */
  lemma BoardOrder(lb: seq<Entry>, order: seq<nat>)
    requires InRange(BoardKeys(lb), order) && Ordered(BoardKeys(lb), order)
    ensures forall p, q :: 0 <= p < q < |order| ==> !RanksBelow(lb[order[p]], lb[order[q]])
  {
    forall p, q | 0 <= p < q < |order|
      ensures !RanksBelow(lb[order[p]], lb[order[q]])
    {
      if RanksBelow(lb[order[p]], lb[order[q]]) {
        RanksBelowPrecedes(lb, order[p], order[q]);
      }
    }
  }

  /** Positions inside a prefix select the same entries from the whole. */
  lemma SelectPrefix<T>(s: seq<T>, n: nat, ps: seq<nat>)
    requires n <= |s| && forall k :: 0 <= k < |ps| ==> ps[k] < n
    ensures Select(s, ps) == Select(s[..n], ps)
  {
  }

  lemma SelectSnoc<T>(s: seq<T>, ps: seq<nat>, n: nat)
    requires n < |s| && forall k :: 0 <= k < |ps| ==> ps[k] < |s|
    ensures Select(s, ps + [n]) == Select(s, ps) + [s[n]]
  {
  }

  /** One more entry adds itself to the contest's entries when it belongs
      to the contest. */
  lemma FilterSnoc(init: seq<Entry>, x: Entry, contest: Id)
    ensures Filter(init + [x], InContest, contest) ==
            Filter(init, InContest, contest) + (if x.contestId == contest then [x] else [])
  {
    FilterAppend(init, [x], InContest, contest);
    assert [x][1..] == [];
  }

  /** The entries at the contest's positions are the contest's entries. */
  lemma {:induction false} ContestEntries(lb: seq<Entry>, contest: Id)
    ensures Select(lb, ContestPositions(lb, contest)) == Filter(lb, InContest, contest)
  {
    if lb != [] {
      var n := |lb| - 1;
      var init := lb[..n];
      var x := lb[n];
      var ps := ContestPositions(init, contest);
      ContestEntries(init, contest);
      FilterSnoc(init, x, contest);
      assert init + [x] == lb;
      SelectPrefix(lb, n, ps);
      if x.contestId == contest {
        SelectSnoc(lb, ps, n);
      }
    }
  }
}
