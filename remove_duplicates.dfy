/** `remove_duplicates.py`: the maintenance script that groups the modules
    collection by course, module number and title and deletes every module
    of a group but the first. The printed report is left out; the count the
    script prints at the end is the method's result. */
module RemoveDuplicates {
  import opened Common
  import opened Store

  /** The grouping key `(str(courseId), moduleNo, title)`. Printing an
      ObjectId is one-to-one, so the id itself stands for its text. */
  datatype ModuleKey = ModuleKey(courseId: Id, moduleNo: int, title: string)

  function KeyOf(m: Module): ModuleKey {
    ModuleKey(m.courseId, m.moduleNo, m.title)
  }

  /** The keys occurring in `ms`. */
  function KeysOf(ms: seq<Module>): (ks: set<ModuleKey>)
    ensures forall i :: 0 <= i < |ms| ==> KeyOf(ms[i]) in ks
  {
    if ms == [] then {} else KeysOf(ms[..|ms| - 1]) + {KeyOf(ms[|ms| - 1])}
  }

  /** A key no module has is not among the keys. */
  lemma {:induction false} KeyAbsent(ms: seq<Module>, k: ModuleKey)
    requires forall i :: 0 <= i < |ms| ==> KeyOf(ms[i]) != k
    ensures k !in KeysOf(ms)
  {
    if ms != [] {
      var init := ms[..|ms| - 1];
      assert forall i :: 0 <= i < |init| ==> init[i] == ms[i];
      KeyAbsent(init, k);
    }
  }

  /** MongoDB keeps `_id` unique within a collection. */
  predicate UniqueIds(ms: seq<Module>) {
    forall i, j :: 0 <= i < j < |ms| ==> ms[i].id != ms[j].id
  }

  /** The intended outcome: every module whose key no earlier module of the
      listing has, in listing order. */
  function KeepFirst(ms: seq<Module>): (r: seq<Module>)
    ensures |r| <= |ms| && forall m <- r :: m in ms
  {
    if ms == [] then []
    else
      var init := ms[..|ms| - 1];
      var m := ms[|ms| - 1];
      KeepFirst(init) + (if KeyOf(m) in KeysOf(init) then [] else [m])
  }

  /** The ids of the modules that repeat the key of an earlier one: those
      the script deletes. */
  function DuplicateIds(ms: seq<Module>): set<Id> {
    if ms == [] then {}
    else
      var init := ms[..|ms| - 1];
      var m := ms[|ms| - 1];
      DuplicateIds(init) + (if KeyOf(m) in KeysOf(init) then {m.id} else {})
  }

  /** The ids of a list of modules. */
  function IdSet(ms: seq<Module>): (ids: set<Id>)
    ensures forall i :: 0 <= i < |ms| ==> ms[i].id in ids
  {
    if ms == [] then {} else IdSet(ms[..|ms| - 1]) + {ms[|ms| - 1].id}
  }

  /** The collection once every module whose id is in `gone` is deleted. */
  function Without(ms: seq<Module>, gone: set<Id>): (r: seq<Module>)
  {
    if ms == [] then []
    else
      var m := ms[|ms| - 1];
      Without(ms[..|ms| - 1], gone) + (if m.id in gone then [] else [m])
  }

  /** The `defaultdict` the first loop builds, and its keys in insertion
      order (the order `items()` yields them). */
  datatype Grouping = Grouping(groups: map<ModuleKey, seq<Module>>, order: seq<ModuleKey>)

  /** `module_groups[key].append(module)` for each module of the listing. */
  function GroupingOf(ms: seq<Module>): (g: Grouping)
    ensures forall k <- g.order :: k in g.groups
  {
    if ms == [] then Grouping(map[], [])
    else Append(GroupingOf(ms[..|ms| - 1]), ms[|ms| - 1])
  }

  /** `module_groups[key].append(module)` for one module. */
  function Append(g: Grouping, m: Module): (r: Grouping)
    requires forall k <- g.order :: k in g.groups
    ensures forall k <- r.order :: k in r.groups
  {
    var k := KeyOf(m);
    if k in g.groups then Grouping(g.groups[k := g.groups[k] + [m]], g.order)
    else Grouping(g.groups[k := [m]], g.order + [k])
  }

  /** Every group is non-empty and listed once, and the groups are exactly
      the keys of the listing. */
  predicate WellFormed(g: Grouping) {
    && Distinct(g.order)
    && (forall k <- g.groups :: k in g.order)
    && (forall k <- g.order :: k in g.groups)
    && (forall k <- g.groups :: |g.groups[k]| >= 1)
  }

  /** The ids the deletion loop removes from the groups of `ks`: all but
      each group's first. */
  function TailIds(groups: map<ModuleKey, seq<Module>>, ks: seq<ModuleKey>): set<Id>
    requires forall k <- ks :: k in groups
  {
    if ks == [] then {}
    else
      var g := groups[ks[|ks| - 1]];
      TailIds(groups, ks[..|ks| - 1]) + (if |g| <= 1 then {} else IdSet(g[1..]))
  }

  /** How many deletions the loop issues for the groups of `ks`. */
  function TailCount(groups: map<ModuleKey, seq<Module>>, ks: seq<ModuleKey>): nat
    requires forall k <- ks :: k in groups
  {
    if ks == [] then 0
    else
      var g := groups[ks[|ks| - 1]];
      TailCount(groups, ks[..|ks| - 1]) + (if |g| <= 1 then 0 else |g| - 1)
  }

  /** The grouping keeps every group non-empty, each key listed once, and
      the keys those of the listing. */
  lemma {:induction false} GroupingWellFormed(ms: seq<Module>)
    ensures WellFormed(GroupingOf(ms))
    ensures GroupingOf(ms).groups.Keys == KeysOf(ms)
    ensures |GroupingOf(ms).order| == |KeepFirst(ms)|
  {
    if ms != [] {
      var init := ms[..|ms| - 1];
      var m := ms[|ms| - 1];
      GroupingWellFormed(init);
      AppendWellFormed(GroupingOf(init), m);
      assert KeysOf(ms) == KeysOf(init) + {KeyOf(m)};
    }
  }

  /** One module more keeps the grouping well formed, adds its key, and
      adds a group exactly when the key is new. */
  lemma AppendWellFormed(g: Grouping, m: Module)
    requires WellFormed(g)
    ensures WellFormed(Append(g, m))
    ensures Append(g, m).groups.Keys == g.groups.Keys + {KeyOf(m)}
    ensures |Append(g, m).order| == |g.order| + (if KeyOf(m) in g.groups then 0 else 1)
  {
    var k := KeyOf(m);
    if k !in g.groups {
      var order := g.order + [k];
      assert forall i :: 0 <= i < |g.order| ==> order[i] == g.order[i] && g.order[i] != k;
    }
  }

  /** Appending a module to a group that has one adds its id to the ids
      deleted. */
  lemma {:induction false} TailIdsGrow(groups: map<ModuleKey, seq<Module>>, ks: seq<ModuleKey>, k: ModuleKey, m: Module)
    requires forall j <- ks :: j in groups
    requires k in groups && |groups[k]| >= 1
    ensures TailIds(groups[k := groups[k] + [m]], ks) == TailIds(groups, ks) + (if k in ks then {m.id} else {})
  {
    if ks != [] {
      TailIdsGrow(groups, ks[..|ks| - 1], k, m);
      var last := ks[|ks| - 1];
      if last == k {
        var g := groups[k];
        assert (g + [m])[1..] == g[1..] + [m];
        assert (g[1..] + [m])[..|g| - 1] == g[1..];
      }
    }
  }

  /** A group added under a new key has only its first module. */
  lemma {:induction false} TailIdsNewKey(groups: map<ModuleKey, seq<Module>>, ks: seq<ModuleKey>, k: ModuleKey, m: Module)
    requires forall j <- ks :: j in groups
    requires k !in ks
    ensures TailIds(groups[k := [m]], ks) == TailIds(groups, ks)
    ensures TailCount(groups[k := [m]], ks) == TailCount(groups, ks)
  {
    if ks != [] {
      TailIdsNewKey(groups, ks[..|ks| - 1], k, m);
    }
  }

  /** Appending to a group listed once adds one deletion. */
  lemma {:induction false} TailCountGrow(groups: map<ModuleKey, seq<Module>>, ks: seq<ModuleKey>, k: ModuleKey, m: Module)
    requires forall j <- ks :: j in groups
    requires k in groups && |groups[k]| >= 1 && Distinct(ks)
    ensures TailCount(groups[k := groups[k] + [m]], ks) == TailCount(groups, ks) + (if k in ks then 1 else 0)
  {
    if ks != [] {
      TailCountGrow(groups, ks[..|ks| - 1], k, m);
    }
  }

  /** The loop deletes exactly the modules that repeat an earlier key, and
      issues one deletion per module beyond the first of its key. */
  lemma {:induction false} GroupTails(ms: seq<Module>)
    ensures TailIds(GroupingOf(ms).groups, GroupingOf(ms).order) == DuplicateIds(ms)
    ensures TailCount(GroupingOf(ms).groups, GroupingOf(ms).order) == |ms| - |KeepFirst(ms)|
  {
    GroupingWellFormed(ms);
    if ms != [] {
      var init := ms[..|ms| - 1];
      var m := ms[|ms| - 1];
      var g := GroupingOf(init);
      GroupTails(init);
      GroupingWellFormed(init);
      if KeyOf(m) in g.groups {
        TailIdsGrow(g.groups, g.order, KeyOf(m), m);
        TailCountGrow(g.groups, g.order, KeyOf(m), m);
      } else {
        TailIdsNewKey(g.groups, g.order, KeyOf(m), m);
      }
    }
  }

  /** An id no module has does not change what deleting leaves. */
  lemma {:induction false} WithoutAbsent(ms: seq<Module>, gone: set<Id>, x: Id)
    requires forall i :: 0 <= i < |ms| ==> ms[i].id != x
    ensures Without(ms, gone + {x}) == Without(ms, gone)
  {
    if ms != [] {
      WithoutAbsent(ms[..|ms| - 1], gone, x);
    }
  }

  /** Deleting the ids of `DuplicateIds` leaves exactly the first module of
      each key. */
  lemma {:induction false} WithoutDuplicates(ms: seq<Module>)
    requires UniqueIds(ms)
    ensures Without(ms, DuplicateIds(ms)) == KeepFirst(ms)
  {
    if ms != [] {
      var init := ms[..|ms| - 1];
      var m := ms[|ms| - 1];
      assert UniqueIds(init);
      WithoutDuplicates(init);
      assert forall i :: 0 <= i < |init| ==> init[i].id != m.id by {
        forall i | 0 <= i < |init| ensures init[i].id != m.id {
          assert ms[i] == init[i];
        }
      }
      DuplicateIdsBelong(init, m.id);
      if KeyOf(m) in KeysOf(init) {
        WithoutAbsent(init, DuplicateIds(init), m.id);
        assert Without(ms, DuplicateIds(ms)) == Without(init, DuplicateIds(init) + {m.id});
      } else {
        assert DuplicateIds(ms) == DuplicateIds(init);
        assert Without(ms, DuplicateIds(ms)) == Without(init, DuplicateIds(init)) + [m];
      }
    }
  }

  /** The deleted ids belong to modules of the listing. */
  lemma {:induction false} DuplicateIdsBelong(ms: seq<Module>, x: Id)
    requires forall i :: 0 <= i < |ms| ==> ms[i].id != x
    ensures x !in DuplicateIds(ms)
  {
    if ms != [] {
      var init := ms[..|ms| - 1];
      assert forall i :: 0 <= i < |init| ==> init[i] == ms[i];
      DuplicateIdsBelong(init, x);
    }
  }

  /** Deleting nothing leaves the collection whole. */
  lemma {:induction false} WithoutNothing(ms: seq<Module>)
    ensures Without(ms, {}) == ms
  {
    if ms != [] {
      WithoutNothing(ms[..|ms| - 1]);
    }
  }

  /** Deleting two sets of ids one after the other is deleting their union. */
  lemma {:induction false} WithoutTwice(ms: seq<Module>, a: set<Id>, b: set<Id>)
    ensures Without(Without(ms, a), b) == Without(ms, a + b)
  {
    if ms != [] {
      var init := ms[..|ms| - 1];
      var m := ms[|ms| - 1];
      WithoutTwice(init, a, b);
      var wa := Without(init, a);
      if m.id !in a {
        assert Without(ms, a) == wa + [m];
        assert (wa + [m])[..|wa|] == wa;
        assert Without(wa + [m], b) == Without(wa, b) + (if m.id in b then [] else [m]);
      } else {
        assert Without(ms, a) == wa;
      }
    }
  }

  /** With unique ids, deleting the id of the last module removes it and
      nothing else. */
  lemma WithoutLast(w: seq<Module>)
    requires UniqueIds(w) && w != []
    ensures Without(w, {w[|w| - 1].id}) == w[..|w| - 1]
  {
    var init := w[..|w| - 1];
    var m := w[|w| - 1];
    forall j | 0 <= j < |init|
      ensures IdOfModule(init[j]) != m.id
    {
      assert init[j] == w[j];
    }
    WithoutMissing(init, m.id);
    assert Without(w, {m.id}) == Without(init, {m.id});
  }

  /** With unique ids, deleting the id of position `i` removes that
      position and nothing else. */
  lemma {:induction false} WithoutOne(w: seq<Module>, i: nat)
    requires UniqueIds(w) && i < |w|
    ensures Without(w, {w[i].id}) == w[..i] + w[i + 1..]
  {
    var init := w[..|w| - 1];
    var m := w[|w| - 1];
    if i == |w| - 1 {
      WithoutLast(w);
      assert w[..i] + w[i + 1..] == init;
    } else {
      assert UniqueIds(init);
      WithoutOne(init, i);
      assert init[i] == w[i];
      assert m.id != w[i].id;
      assert Without(w, {w[i].id}) == Without(init, {w[i].id}) + [m];
      assert w[..i] + w[i + 1..] == init[..i] + init[i + 1..] + [m];
    }
  }

  /** `delete_one({'_id': x})` on a collection with unique ids deletes
      every module with that id. */
  lemma DeleteOneUnique(w: seq<Module>, x: Id)
    requires UniqueIds(w)
    ensures match DeleteOne(w, IdOfModule, x)
            case None => Without(w, {x}) == w
            case Some(r) => Without(w, {x}) == r
  {
    var d := DeleteOne(w, IdOfModule, x);
    if d.None? {
      WithoutMissing(w, x);
    } else {
      var i :| 0 <= i < |w| && IdOfModule(w[i]) == x && d.value == w[..i] + w[i + 1..];
      WithoutOne(w, i);
    }
  }

  /** Deleting an id no module has leaves the collection whole. */
  lemma WithoutMissing(w: seq<Module>, x: Id)
    requires forall i :: 0 <= i < |w| ==> IdOfModule(w[i]) != x
    ensures Without(w, {x}) == w
  {
    WithoutAbsent(w, {}, x);
    WithoutNothing(w);
    assert {} + {x} == {x};
  }

  /** `delete_one({'_id': x})` on what is left, when ids are unique, is the
      same as adding `x` to the deleted ids. */
  lemma DeleteOneWithout(ms: seq<Module>, gone: set<Id>, x: Id)
    requires UniqueIds(ms)
    ensures var w := Without(ms, gone);
            match DeleteOne(w, IdOfModule, x)
            case None => Without(ms, gone + {x}) == w
            case Some(r) => Without(ms, gone + {x}) == r
  {
    WithoutUnique(ms, gone);
    WithoutTwice(ms, gone, {x});
    DeleteOneUnique(Without(ms, gone), x);
  }

  /** What is left of a collection with unique ids has unique ids. */
  lemma {:induction false} WithoutUnique(ms: seq<Module>, gone: set<Id>)
    requires UniqueIds(ms)
    ensures UniqueIds(Without(ms, gone))
  {
    if ms != [] {
      var init := ms[..|ms| - 1];
      var m := ms[|ms| - 1];
      assert UniqueIds(init);
      WithoutUnique(init, gone);
      var wi := Without(init, gone);
      assert forall i :: 0 <= i < |init| ==> init[i].id != m.id by {
        forall i | 0 <= i < |init| ensures init[i].id != m.id {
          assert ms[i] == init[i];
        }
      }
      WithoutIdAbsent(init, gone, m.id);
    }
  }

  /** An id no module has is not the id of any module left. */
  lemma {:induction false} WithoutIdAbsent(ms: seq<Module>, gone: set<Id>, x: Id)
    requires forall i :: 0 <= i < |ms| ==> ms[i].id != x
    ensures forall j :: 0 <= j < |Without(ms, gone)| ==> Without(ms, gone)[j].id != x
  {
    if ms != [] {
      var init := ms[..|ms| - 1];
      assert forall i :: 0 <= i < |init| ==> init[i] == ms[i];
      WithoutIdAbsent(init, gone, x);
    }
  }

  /** After the script no two modules share a key. */
  lemma {:induction false} KeepFirstKeysDistinct(ms: seq<Module>)
    ensures forall i, j :: 0 <= i < j < |KeepFirst(ms)| ==> KeyOf(KeepFirst(ms)[i]) != KeyOf(KeepFirst(ms)[j])
    ensures KeysOf(KeepFirst(ms)) == KeysOf(ms)
  {
    if ms != [] {
      var init := ms[..|ms| - 1];
      var m := ms[|ms| - 1];
      KeepFirstKeysDistinct(init);
      var k := KeepFirst(init);
      assert KeysOf(ms) == KeysOf(init) + {KeyOf(m)};
      if KeyOf(m) !in KeysOf(init) {
        assert KeepFirst(ms) == k + [m];
        assert KeysOf(k + [m]) == KeysOf(k) + {KeyOf(m)} by {
          assert (k + [m])[..|k|] == k;
        }
        forall i | 0 <= i < |k| ensures KeyOf(k[i]) != KeyOf(m) {
          assert KeyOf(k[i]) in KeysOf(k);
        }
      } else {
        assert KeepFirst(ms) == k;
      }
    }
  }

  /** Every key keeps one module: one for each distinct key. */
  lemma {:induction false} KeepFirstCount(ms: seq<Module>)
    ensures |KeepFirst(ms)| == |KeysOf(ms)|
  {
    if ms != [] {
      var init := ms[..|ms| - 1];
      var m := ms[|ms| - 1];
      KeepFirstCount(init);
      assert KeysOf(ms) == KeysOf(init) + {KeyOf(m)};
      if KeyOf(m) in KeysOf(init) {
        assert KeysOf(ms) == KeysOf(init);
      } else {
        assert |KeysOf(ms)| == |KeysOf(init)| + 1;
      }
    }
  }

  /** A module whose key no other module has stays. */
  lemma {:induction false} UniqueKeyKept(ms: seq<Module>, i: nat)
    requires i < |ms|
    requires forall j :: 0 <= j < |ms| && j != i ==> KeyOf(ms[j]) != KeyOf(ms[i])
    ensures ms[i] in KeepFirst(ms)
  {
    var init := ms[..|ms| - 1];
    if i == |ms| - 1 {
      assert forall j :: 0 <= j < |init| ==> init[j] == ms[j];
      KeyAbsent(init, KeyOf(ms[i]));
      assert KeepFirst(ms) == KeepFirst(init) + [ms[i]];
    } else {
      forall j | 0 <= j < |init| && j != i ensures KeyOf(init[j]) != KeyOf(init[i]) {
        assert ms[j] == init[j];
      }
      UniqueKeyKept(init, i);
      assert init[i] == ms[i];
      assert KeepFirst(init) <= KeepFirst(ms);
    }
  }

  /** A second run finds nothing to delete. */
  lemma {:induction false} KeepFirstIdempotent(ms: seq<Module>)
    ensures KeepFirst(KeepFirst(ms)) == KeepFirst(ms)
  {
    KeepFirstKeysDistinct(ms);
    NoRepeatsKept(KeepFirst(ms));
  }

  /** A listing whose keys are all different is kept whole. */
  lemma {:induction false} NoRepeatsKept(ms: seq<Module>)
    requires forall i, j :: 0 <= i < j < |ms| ==> KeyOf(ms[i]) != KeyOf(ms[j])
    ensures KeepFirst(ms) == ms
  {
    if ms != [] {
      var init := ms[..|ms| - 1];
      var m := ms[|ms| - 1];
      LastKeyNew(ms);
      NoRepeatsKept(init);
      KeepFirstSnoc(init, m);
      assert init + [m] == ms;
    }
  }

  /** Without repeated keys, the listing but its last module has none
      either, and the last module's key is new. */
  lemma LastKeyNew(ms: seq<Module>)
    requires ms != []
    requires forall i, j :: 0 <= i < j < |ms| ==> KeyOf(ms[i]) != KeyOf(ms[j])
    ensures var init := ms[..|ms| - 1];
            && (forall i, j :: 0 <= i < j < |init| ==> KeyOf(init[i]) != KeyOf(init[j]))
            && KeyOf(ms[|ms| - 1]) !in KeysOf(init)
  {
    var init := ms[..|ms| - 1];
    assert forall i :: 0 <= i < |init| ==> init[i] == ms[i];
    KeyAbsent(init, KeyOf(ms[|ms| - 1]));
  }

  /** One more module is kept exactly when its key is new. */
  lemma KeepFirstSnoc(init: seq<Module>, m: Module)
    ensures KeepFirst(init + [m]) == KeepFirst(init) + (if KeyOf(m) in KeysOf(init) then [] else [m])
  {
    assert (init + [m])[..|init|] == init;
  }

  /** The first loop: `module_groups`, and its keys in insertion order. */
  method GroupModules(all: seq<Module>) returns (groups: map<ModuleKey, seq<Module>>, order: seq<ModuleKey>)
    ensures Grouping(groups, order) == GroupingOf(all)
  {
    groups := map[];
    order := [];
    var i := 0;
    while i < |all|
      invariant 0 <= i <= |all|
      invariant Grouping(groups, order) == GroupingOf(all[..i])
    {
      var key := KeyOf(all[i]);
      assert all[..i + 1][..i] == all[..i];
      if key in groups {
        groups := groups[key := groups[key] + [all[i]]];
      } else {
        groups := groups[key := [all[i]]];
        order := order + [key];
      }
      i := i + 1;
    }
    assert all[..|all|] == all;
  }

  /** The ids of `group[1..u + 1]`: those of `group[1..u]` and one more. */
  lemma IdSetNext(group: seq<Module>, u: nat)
    requires 1 <= u < |group|
    ensures IdSet(group[1..u + 1]) == IdSet(group[1..u]) + {group[u].id}
  {
    assert group[1..u + 1][..u - 1] == group[1..u];
  }

  /** `db.modules.delete_one({'_id': id})` on what is left of `all` once
      `gone` is deleted: afterwards `id` is deleted too. */
  method DeleteModule(db: Db, all: seq<Module>, ghost gone: set<Id>, id: Id)
    requires UniqueIds(all) && db.modules == Without(all, gone)
    modifies db`modules
    ensures db.modules == Without(all, gone + {id})
  {
    DeleteOneWithout(all, gone, id);
    match DeleteOne(db.modules, IdOfModule, id) {
      case None =>
      case Some(r) => db.modules := r;
    }
  }

  /** `for module in modules[1:]: delete_one(...)` for one group, over a
      collection that is what is left of `all` once `gone` is deleted. */
  method DeleteTail(db: Db, all: seq<Module>, group: seq<Module>, ghost gone: set<Id>) returns (count: nat)
    requires UniqueIds(all) && |group| >= 1 && db.modules == Without(all, gone)
    modifies db`modules
    ensures db.modules == Without(all, gone + IdSet(group[1..]))
    ensures count == |group| - 1
  {
    ghost var deleted: set<Id> := {};
    assert gone + deleted == gone;
    count := 0;
    var u := 1;
    while u < |group|
      invariant 1 <= u <= |group|
      invariant deleted == IdSet(group[1..u])
      invariant count == u - 1
      invariant db.modules == Without(all, gone + deleted)
    {
      DeleteModule(db, all, gone + deleted, group[u].id);
      IdSetNext(group, u);
      assert gone + deleted + {group[u].id} == gone + (deleted + {group[u].id});
      deleted := deleted + {group[u].id};
      count := count + 1;
      u := u + 1;
    }
    assert group[1..u] == group[1..];
  }

  /** `remove_duplicate_modules()`: returns `duplicates_removed`. */
  method RemoveDuplicateModules(db: Db) returns (removed: nat)
    requires UniqueIds(db.modules)
    modifies db`modules
    ensures db.modules == KeepFirst(old(db.modules))
    ensures removed == |old(db.modules)| - |KeepFirst(old(db.modules))|
  {
    var all := db.modules;
    var groups, order := GroupModules(all);
    WithoutNothing(all);
    ghost var gone: set<Id> := {};
    removed := 0;
    var t := 0;
    while t < |order|
      invariant 0 <= t <= |order|
      invariant gone == TailIds(groups, order[..t])
      invariant removed == TailCount(groups, order[..t])
      invariant db.modules == Without(all, gone)
    {
      assert order[..t + 1][..t] == order[..t];
      var modules := groups[order[t]];
      if |modules| > 1 {
        var count := DeleteTail(db, all, modules, gone);
        gone := gone + IdSet(modules[1..]);
        removed := removed + count;
      }
      t := t + 1;
    }
    assert order[..|order|] == order;
    GroupTails(all);
    WithoutDuplicates(all);
  }
}
