/** Python's stable `list.sort(key=...)` over leaderboard documents. A
    document is named by its position in the collection; sorting positions
    that are listed in stored order stably by a key is the same as sorting
    them by (key, position), a strict total order, which is what `Precedes`
    is. */
module Ranking {
  import opened Common

  /** A sort key: compared on `primary`, then on `secondary`. */
  datatype Key = Key(primary: int, secondary: int)

  predicate InRange(keys: seq<Key>, s: seq<nat>) {
    forall k :: 0 <= k < |s| ==> s[k] < |keys|
  }

  /** Position `i` sorts before position `j`. */
  predicate Precedes(keys: seq<Key>, i: nat, j: nat)
    requires i < |keys| && j < |keys|
  {
    || keys[i].primary < keys[j].primary
    || (keys[i].primary == keys[j].primary && keys[i].secondary < keys[j].secondary)
    || (keys[i].primary == keys[j].primary && keys[i].secondary == keys[j].secondary && i < j)
  }

  /** No position of `s` sorts before one listed earlier. */
  predicate Ordered(keys: seq<Key>, s: seq<nat>)
    requires InRange(keys, s)
  {
    forall p, q :: 0 <= p < q < |s| ==> !Precedes(keys, s[q], s[p])
  }

  /** Put `x` in front of the first position it sorts before. */
  function Insert(keys: seq<Key>, x: nat, s: seq<nat>): (r: seq<nat>)
    requires x < |keys| && InRange(keys, s)
    ensures multiset(r) == multiset(s) + multiset{x}
    ensures InRange(keys, r)
  {
    if s == [] then [x]
    else if Precedes(keys, x, s[0]) then
      assert s == [s[0]] + s[1..];
      [x] + s
    else
      assert s == [s[0]] + s[1..];
      [s[0]] + Insert(keys, x, s[1..])
  }

  /** Putting in front a position that sorts before the first keeps order. */
  lemma OrderedCons(keys: seq<Key>, x: nat, s: seq<nat>)
    requires x < |keys| && InRange(keys, s) && Ordered(keys, s)
    requires s != [] && Precedes(keys, x, s[0])
    ensures InRange(keys, [x] + s) && Ordered(keys, [x] + s)
  {
    var r := [x] + s;
    forall p, q | 0 <= p < q < |r| ensures !Precedes(keys, r[q], r[p]) {
      if p == 0 {
        assert r[q] == s[q - 1];
        if q - 1 > 0 {
          assert !Precedes(keys, s[q - 1], s[0]);
        }
      } else {
        assert r[q] == s[q - 1] && r[p] == s[p - 1];
      }
    }
  }

  /** Putting in front a position that no later one sorts before keeps order. */
  lemma OrderedConsAll(keys: seq<Key>, y: nat, rest: seq<nat>)
    requires y < |keys| && InRange(keys, rest) && Ordered(keys, rest)
    requires forall z :: z in rest ==> !Precedes(keys, z, y)
    ensures InRange(keys, [y] + rest) && Ordered(keys, [y] + rest)
  {
    var r := [y] + rest;
    forall p, q | 0 <= p < q < |r| ensures !Precedes(keys, r[q], r[p]) {
      assert r[q] == rest[q - 1];
      if p > 0 {
        assert r[p] == rest[p - 1];
      }
    }
  }

  /** Inserting into an ordered sequence keeps it ordered. */
  lemma {:induction false} InsertOrdered(keys: seq<Key>, x: nat, s: seq<nat>)
    requires x < |keys| && InRange(keys, s) && Ordered(keys, s)
    ensures Ordered(keys, Insert(keys, x, s))
  {
    if s == [] {
    } else if Precedes(keys, x, s[0]) {
      OrderedCons(keys, x, s);
    } else {
      var tail := s[1..];
      assert Ordered(keys, tail) by {
        forall p, q | 0 <= p < q < |tail| ensures !Precedes(keys, tail[q], tail[p]) {
          assert tail[q] == s[q + 1] && tail[p] == s[p + 1];
        }
      }
      var rest := Insert(keys, x, tail);
      InsertOrdered(keys, x, tail);
      forall z | z in rest ensures !Precedes(keys, z, s[0]) {
        assert z in multiset(rest);
        if z != x {
          assert z in multiset(tail);
          var j :| 0 <= j < |tail| && tail[j] == z;
          assert s[j + 1] == z;
        }
      }
      OrderedConsAll(keys, s[0], rest);
    }
  }

  /** Insertion sort of positions by their keys. */
  function SortPositions(keys: seq<Key>, s: seq<nat>): (r: seq<nat>)
    requires InRange(keys, s)
    ensures multiset(r) == multiset(s)
    ensures InRange(keys, r)
  {
    if s == [] then []
    else
      assert s == [s[0]] + s[1..];
      Insert(keys, s[0], SortPositions(keys, s[1..]))
  }

  /** The sort puts the positions in order. */
  lemma {:induction false} SortOrdered(keys: seq<Key>, s: seq<nat>)
    requires InRange(keys, s)
    ensures Ordered(keys, SortPositions(keys, s))
  {
    if s != [] {
      SortOrdered(keys, s[1..]);
      InsertOrdered(keys, s[0], SortPositions(keys, s[1..]));
    }
  }

  /** Sorting positions that are already in order changes nothing: sorting
      twice gives the order sorting once gave. */
  lemma {:induction false} SortOrderedIsIdentity(keys: seq<Key>, s: seq<nat>)
    requires InRange(keys, s) && Ordered(keys, s) && Distinct(s)
    ensures SortPositions(keys, s) == s
  {
    if s != [] {
      SortOrderedIsIdentity(keys, s[1..]);
      if |s| > 1 {
        assert !Precedes(keys, s[1], s[0]) && s[0] != s[1];
      }
    }
  }

  /** The documents at sorted positions are the documents at the original
      positions, rearranged. */
  lemma {:induction false} SelectInsert<T>(t: seq<T>, keys: seq<Key>, x: nat, s: seq<nat>)
    requires x < |keys| && InRange(keys, s) && |keys| == |t|
    ensures multiset(Select(t, Insert(keys, x, s))) == multiset(Select(t, s)) + multiset{t[x]}
  {
    if s != [] && !Precedes(keys, x, s[0]) {
      SelectInsert(t, keys, x, s[1..]);
      assert Select(t, Insert(keys, x, s)) == [t[s[0]]] + Select(t, Insert(keys, x, s[1..]));
      assert Select(t, s) == [t[s[0]]] + Select(t, s[1..]);
    } else if s != [] {
      assert Select(t, Insert(keys, x, s)) == [t[x]] + Select(t, s);
    }
  }

  lemma {:induction false} SelectSort<T>(t: seq<T>, keys: seq<Key>, s: seq<nat>)
    requires InRange(keys, s) && |keys| == |t|
    ensures multiset(Select(t, SortPositions(keys, s))) == multiset(Select(t, s))
  {
    if s != [] {
      var sorted := SortPositions(keys, s[1..]);
      calc {
        multiset(Select(t, SortPositions(keys, s)));
        multiset(Select(t, Insert(keys, s[0], sorted)));
        { SelectInsert(t, keys, s[0], sorted); }
        multiset(Select(t, sorted)) + multiset{t[s[0]]};
        { SelectSort(t, keys, s[1..]); }
        multiset(Select(t, s[1..])) + multiset{t[s[0]]};
        { assert Select(t, s) == [t[s[0]]] + Select(t, s[1..]); }
        multiset(Select(t, s));
      }
    }
  }

  /** Sorting positions without repeats gives positions without repeats. */
  lemma SortDistinct(keys: seq<Key>, s: seq<nat>)
    requires InRange(keys, s) && Distinct(s)
    ensures Distinct(SortPositions(keys, s))
  {
    DistinctPermutation(s, SortPositions(keys, s));
  }
}
