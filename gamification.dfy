/** `gamification_routes.py`: a student's profile and quiz progress. */
module GamificationRoutes {
  import opened Common
  import opened Store
  import opened Models

  /** A user document as the profile returns it: every field but the
      password hash, which the projection `{'passwordHash': 0}` drops. */
  datatype Profile = Profile(
    id: Id, name: string, email: string, role: string, xp: int, level: int,
    badges: set<string>, completedModules: seq<Id>, createdAt: Time)

  function ProfileOf(u: User): Profile {
    Profile(u.id, u.name, u.email, u.role, u.xp, u.level, u.badges, u.completedModules, u.createdAt)
  }

  /** `GET /student/profile`. */
  function StudentProfile(users: seq<User>, student: Id): (r: Response<Profile>)
    ensures r.Err? <==> forall k :: 0 <= k < |users| ==> users[k].id != student
    ensures r.Err? ==> r == Err(404, "User not found")
    ensures r.Ok? ==> exists k :: 0 <= k < |users| && users[k].id == student && r.value == ProfileOf(users[k])
  {
    match Find(users, IdOfUser, student)
    case None => Err(404, "User not found")
    case Some(k) => Ok(ProfileOf(users[k]))
  }

  /** The profile carries nothing of the password hash: users that differ
      only in their hashes have the same profile. */
  lemma ProfileIgnoresPassword(users: seq<User>, k: nat, hash: string, student: Id)
    requires k < |users|
    ensures StudentProfile(users[k := users[k].(passwordHash := hash)], student) == StudentProfile(users, student)
  {
    var other := users[k := users[k].(passwordHash := hash)];
    assert forall j :: 0 <= j < |users| ==> IdOfUser(other[j]) == IdOfUser(users[j]);
    assert Find(other, IdOfUser, student) == Find(users, IdOfUser, student) by {
      FindSameKeys(other, users, student);
    }
  }

  lemma FindSameKeys(a: seq<User>, b: seq<User>, id: Id)
    requires |a| == |b| && forall j :: 0 <= j < |a| ==> a[j].id == b[j].id
    ensures Find(a, IdOfUser, id) == Find(b, IdOfUser, id)
  {
    var x, y := Find(a, IdOfUser, id), Find(b, IdOfUser, id);
    if x.Some? && y.Some? {
      assert !(x.value < y.value) && !(y.value < x.value);
    }
  }

  /** One attempt as the progress list shows it. */
  datatype ProgressRow = ProgressRow(moduleId: Id, score: int, total: int, xpEarned: int, timeTaken: int, attemptedAt: Time)

  datatype Progress = Progress(totalXp: int, level: int, attempts: seq<ProgressRow>)

  function RowOf(a: Attempt): ProgressRow {
    ProgressRow(a.moduleId, a.score, a.total, a.xpEarned, a.timeTaken, a.attemptedAt)
  }

  /** The XP earned over a list of attempts. */
  function TotalXp(attempts: seq<Attempt>): int {
    if attempts == [] then 0 else TotalXp(attempts[..|attempts| - 1]) + attempts[|attempts| - 1].xpEarned
  }

  lemma {:induction false} TotalXpAppend(a: seq<Attempt>, b: seq<Attempt>)
    ensures TotalXp(a + b) == TotalXp(a) + TotalXp(b)
  {
    if b != [] {
      var init := b[..|b| - 1];
      TotalXpAppend(a, init);
      assert (a + b)[..|a + b| - 1] == a + init;
    } else {
      assert a + b == a;
    }
  }

  /** A stored attempt adds its XP to its own student's total and to no
      one else's. */
  lemma TotalXpAfterAttempt(attempts: seq<Attempt>, at: Attempt, student: Id)
    ensures TotalXp(Filter(attempts + [at], OfStudent, student))
         == TotalXp(Filter(attempts, OfStudent, student)) + (if at.studentId == student then at.xpEarned else 0)
  {
    FilterAppend(attempts, [at], OfStudent, student);
    assert [at][1..] == [];
    TotalXpAppend(Filter(attempts, OfStudent, student), Filter([at], OfStudent, student));
  }

  /** With no negative XP in the history the total is not negative. */
  lemma {:induction false} TotalXpNonNegative(attempts: seq<Attempt>)
    requires forall a <- attempts :: a.xpEarned >= 0
    ensures TotalXp(attempts) >= 0
  {
    if attempts != [] {
      assert attempts[|attempts| - 1] in attempts;
      TotalXpNonNegative(attempts[..|attempts| - 1]);
    }
  }

  /** The loop of `student_progress` over the student's attempts. */
  method SummarizeAttempts(attempts: seq<Attempt>) returns (p: Progress)
    ensures p.totalXp == TotalXp(attempts) && p.level == Level(p.totalXp)
    ensures |p.attempts| == |attempts|
    ensures forall k :: 0 <= k < |attempts| ==> p.attempts[k] == RowOf(attempts[k])
  {
    var total := 0;
    var rows: seq<ProgressRow> := [];
    var i := 0;
    while i < |attempts|
      invariant 0 <= i <= |attempts|
      invariant total == TotalXp(attempts[..i])
      invariant |rows| == i && forall k :: 0 <= k < i ==> rows[k] == RowOf(attempts[k])
    {
      assert attempts[..i + 1][..i] == attempts[..i];
      var a := attempts[i];
      total := total + a.xpEarned;
      rows := rows + [ProgressRow(a.moduleId, a.score, a.total, a.xpEarned, a.timeTaken, a.attemptedAt)];
      i := i + 1;
    }
    assert attempts[..i] == attempts;
    var level := LevelForXp(total);
    p := Progress(total, level, rows);
  }

  /** `GET /student/progress`: the student's attempts in stored order. */
  method StudentProgress(quizAttempts: seq<Attempt>, student: Id) returns (p: Progress)
    ensures var mine := Filter(quizAttempts, OfStudent, student);
            && p.totalXp == TotalXp(mine) && p.level == Level(p.totalXp)
            && |p.attempts| == |mine|
            && forall k :: 0 <= k < |mine| ==> p.attempts[k] == RowOf(mine[k])
  {
    p := SummarizeAttempts(Filter(quizAttempts, OfStudent, student));
  }
}
