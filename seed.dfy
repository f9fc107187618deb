/** `seed.py`: the start-up seeding of the Compiler Design course and its
    five modules, inserting only what is missing. */
module Seed {
  import opened Common
  import opened Store

  const CourseTitle: string := "Compiler Design"
  const CourseDescription: string := "Learn compiler design via gamified modules."

  /** The course's module numbers are 1 to `ModuleCount`. */
  const ModuleCount: nat := 5

  /** The module titles by number. */
  function SeedTitle(n: int): string {
    if n == 1 then "Lexical Analysis"
    else if n == 2 then "Syntax Analysis"
    else if n == 3 then "Semantic Analysis"
    else if n == 4 then "Intermediate Code Generation"
    else "Code Optimization & Code Generation"
  }

  /** The video links by number (`video_links.get(mno, [])`). */
  function SeedLinks(n: int): seq<string> {
    if n == 1 then ["https://www.youtube.com/watch?v=UwFsS33xu0Q"]
    else if n == 2 then ["https://www.youtube.com/watch?v=Qkdc6K3VPBs"]
    else if n == 3 then ["https://www.youtube.com/watch?v=_CJN1qpLv-k"]
    else if n == 4 then ["https://www.youtube.com/watch?v=1GSjbWt0c9M"]
    else if n == 5 then ["https://www.youtube.com/watch?v=FnGCDLhaxKU"]
    else []
  }

  /** The module seeded for number `n` of the course. */
  function SeedModule(id: Id, courseId: Id, n: int): Module {
    Module(id, courseId, n, SeedTitle(n), "Notes for " + SeedTitle(n) + ".", SeedLinks(n), false)
  }

  /** `find_one({'title': ...})` on the courses. */
  function FindCourse(courses: seq<Course>, title: string): (r: Option<nat>)
    ensures r.Some? ==> r.value < |courses| && courses[r.value].title == title
    ensures r.Some? ==> forall j :: 0 <= j < r.value ==> courses[j].title != title
    ensures r.None? <==> forall j :: 0 <= j < |courses| ==> courses[j].title != title
  {
    if courses == [] then None
    else if courses[0].title == title then Some(0)
    else match FindCourse(courses[1..], title)
      case None => None
      case Some(k) => Some(k + 1)
  }

  /** `find_one({'courseId': c, 'moduleNo': n})` finds a module. */
  predicate HasModule(modules: seq<Module>, courseId: Id, n: int) {
    exists m <- modules :: m.courseId == courseId && m.moduleNo == n
  }

  /** The modules after the checks for numbers 1..`upTo`, each inserting
      the missing module with the next id; also the next id after them. */
  function SeedModules(modules: seq<Module>, courseId: Id, nextId: Id, upTo: nat): (r: (seq<Module>, Id))
    ensures modules <= r.0 && r.1 == nextId + |r.0| - |modules|
  {
    if upTo == 0 then (modules, nextId)
    else
      var prev := SeedModules(modules, courseId, nextId, upTo - 1);
      if HasModule(prev.0, courseId, upTo) then prev
      else (prev.0 + [SeedModule(prev.1, courseId, upTo)], prev.1 + 1)
  }

  /** After the checks every number up to `upTo` has its module. */
  lemma {:induction false} SeedModulesComplete(modules: seq<Module>, courseId: Id, nextId: Id, upTo: nat)
    ensures forall n :: 1 <= n <= upTo ==> HasModule(SeedModules(modules, courseId, nextId, upTo).0, courseId, n)
  {
    if upTo > 0 {
      var prev := SeedModules(modules, courseId, nextId, upTo - 1);
      SeedModulesComplete(modules, courseId, nextId, upTo - 1);
      if !HasModule(prev.0, courseId, upTo) {
        var added := prev.0 + [SeedModule(prev.1, courseId, upTo)];
        forall n | 1 <= n < upTo ensures HasModule(added, courseId, n) {
          assert HasModule(prev.0, courseId, n);
          var m :| m in prev.0 && m.courseId == courseId && m.moduleNo == n;
          assert m in added;
        }
        assert added[|added| - 1] in added;
      }
    }
  }

  /** Modules already present for every number up to `upTo` are left as they
      are: the loop inserts nothing. */
  lemma {:induction false} SeedModulesNothingMissing(modules: seq<Module>, courseId: Id, nextId: Id, upTo: nat)
    requires forall n :: 1 <= n <= upTo ==> HasModule(modules, courseId, n)
    ensures SeedModules(modules, courseId, nextId, upTo) == (modules, nextId)
  {
    if upTo > 0 {
      SeedModulesNothingMissing(modules, courseId, nextId, upTo - 1);
    }
  }

  /** The tables `seed_initial_data` leaves: the course (when none has the
      title) and the missing modules, with the next free id. */
  function Seeded(courses: seq<Course>, modules: seq<Module>, nextId: Id): (r: (seq<Course>, seq<Module>, Id))
    ensures courses <= r.0 && modules <= r.1
    ensures FindCourse(courses, CourseTitle).Some? ==> r.0 == courses
    ensures FindCourse(courses, CourseTitle).None? ==>
              r.0 == courses + [Course(nextId, CourseTitle, CourseDescription, [1, 2, 3, 4, 5])]
  {
    match FindCourse(courses, CourseTitle)
    case Some(k) =>
      var s := SeedModules(modules, courses[k].id, nextId, ModuleCount);
      (courses, s.0, s.1)
    case None =>
      var course := Course(nextId, CourseTitle, CourseDescription, [1, 2, 3, 4, 5]);
      var s := SeedModules(modules, nextId, nextId + 1, ModuleCount);
      (courses + [course], s.0, s.1)
  }

  /** After seeding the course exists and has a module for every number. */
  lemma SeededComplete(courses: seq<Course>, modules: seq<Module>, nextId: Id)
    ensures var r := Seeded(courses, modules, nextId);
            && FindCourse(r.0, CourseTitle).Some?
            && var c := r.0[FindCourse(r.0, CourseTitle).value].id;
               forall n :: 1 <= n <= ModuleCount ==> HasModule(r.1, c, n)
  {
    match FindCourse(courses, CourseTitle)
    case Some(k) =>
      SeedModulesComplete(modules, courses[k].id, nextId, ModuleCount);
    case None =>
      var course := Course(nextId, CourseTitle, CourseDescription, [1, 2, 3, 4, 5]);
      CourseAppended(courses, course);
      SeedModulesComplete(modules, nextId, nextId + 1, ModuleCount);
  }

  lemma CourseAppended(courses: seq<Course>, c: Course)
    requires FindCourse(courses, c.title).None?
    ensures FindCourse(courses + [c], c.title) == Some(|courses|)
  {
    var all := courses + [c];
    assert all[|courses|].title == c.title;
    assert forall j :: 0 <= j < |courses| ==> all[j] == courses[j];
  }

  /** Seeding twice is seeding once: the second run inserts nothing. */
  lemma SeedIdempotent(courses: seq<Course>, modules: seq<Module>, nextId: Id, laterId: Id)
    ensures var once := Seeded(courses, modules, nextId);
            Seeded(once.0, once.1, laterId) == (once.0, once.1, laterId)
  {
    var once := Seeded(courses, modules, nextId);
    SeededComplete(courses, modules, nextId);
    var k := FindCourse(once.0, CourseTitle).value;
    SeedModulesNothingMissing(once.1, once.0[k].id, laterId, ModuleCount);
  }

  /** `seed_initial_data()`. */
  method SeedInitialData(db: Db)
    requires db.Valid()
    modifies db`courses, db`modules, db`nextId
    ensures db.Valid()
    ensures (db.courses, db.modules, db.nextId) == Seeded(old(db.courses), old(db.modules), old(db.nextId))
  {
    var courseId := SeedCourse(db);
    SeedLoop(db, courseId);
  }

  /** The course part of `seed_initial_data`: find the course by title,
      inserting it first when it is missing. */
  method SeedCourse(db: Db) returns (courseId: Id)
    requires db.Valid()
    modifies db`courses, db`nextId
    ensures db.Valid()
    ensures FindCourse(old(db.courses), CourseTitle).Some? ==>
              && db.courses == old(db.courses) && db.nextId == old(db.nextId)
              && courseId == old(db.courses)[FindCourse(old(db.courses), CourseTitle).value].id
    ensures FindCourse(old(db.courses), CourseTitle).None? ==>
              && db.courses == old(db.courses) + [Course(old(db.nextId), CourseTitle, CourseDescription, [1, 2, 3, 4, 5])]
              && db.nextId == old(db.nextId) + 1 && courseId == old(db.nextId)
  {
    var found := FindCourse(db.courses, CourseTitle);
    if found.None? {
      var id := db.NewId();
      db.courses := db.courses + [Course(id, CourseTitle, CourseDescription, [1, 2, 3, 4, 5])];
      CourseAppended(old(db.courses), db.courses[|db.courses| - 1]);
      found := FindCourse(db.courses, CourseTitle);
    }
    courseId := db.courses[found.value].id;
  }

  /** The module loop of `seed_initial_data`, numbers 1 to 5 in order. */
  method SeedLoop(db: Db, courseId: Id)
    requires db.Valid()
    modifies db`modules, db`nextId
    ensures db.Valid()
    ensures db.modules == SeedModules(old(db.modules), courseId, old(db.nextId), ModuleCount).0
    ensures db.nextId == SeedModules(old(db.modules), courseId, old(db.nextId), ModuleCount).1
  {
    for n := 1 to ModuleCount + 1
      invariant db.Valid()
      invariant db.modules == SeedModules(old(db.modules), courseId, old(db.nextId), n - 1).0
      invariant db.nextId == SeedModules(old(db.modules), courseId, old(db.nextId), n - 1).1
    {
      SeedModulesStep(old(db.modules), courseId, old(db.nextId), n);
      SeedOne(db, courseId, n);
    }
  }

  /** The checks up to `upTo`, one step unfolded. */
  lemma SeedModulesStep(modules: seq<Module>, courseId: Id, nextId: Id, upTo: nat)
    requires upTo >= 1
    ensures var prev := SeedModules(modules, courseId, nextId, upTo - 1);
            SeedModules(modules, courseId, nextId, upTo) ==
              if HasModule(prev.0, courseId, upTo) then prev
              else (prev.0 + [SeedModule(prev.1, courseId, upTo)], prev.1 + 1)
  {
  }

  /** One pass of the module loop: module `n` is inserted unless present. */
  method SeedOne(db: Db, courseId: Id, n: nat)
    requires db.Valid()
    modifies db`modules, db`nextId
    ensures db.Valid()
    ensures HasModule(old(db.modules), courseId, n) ==> db.modules == old(db.modules) && db.nextId == old(db.nextId)
    ensures !HasModule(old(db.modules), courseId, n) ==>
              db.modules == old(db.modules) + [SeedModule(old(db.nextId), courseId, n)] && db.nextId == old(db.nextId) + 1
  {
    var present := HasModuleScan(db.modules, courseId, n);
    if !present {
      var id := db.NewId();
      db.modules := db.modules + [SeedModule(id, courseId, n)];
    }
  }

  /** The `find_one` existence check. */
  method HasModuleScan(modules: seq<Module>, courseId: Id, n: int) returns (found: bool)
    ensures found == HasModule(modules, courseId, n)
  {
    found := false;
    var i := 0;
    while i < |modules|
      invariant 0 <= i <= |modules|
      invariant !found <==> forall j :: 0 <= j < i ==> !(modules[j].courseId == courseId && modules[j].moduleNo == n)
    {
      if modules[i].courseId == courseId && modules[i].moduleNo == n {
        found := true;
        assert modules[i] in modules;
        return;
      }
      i := i + 1;
    }
  }
}
