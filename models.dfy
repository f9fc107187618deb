/** The level table and badge names shared by the quiz, contest and
    progress handlers (backend/src/models.py). */
module Models {

  /** XP needed for levels 1 to 6. */
  const Thresholds: seq<int> := [0, 100, 200, 350, 500, 700]

  const BadgePerfect: string := "Perfect Score"
  const BadgeQuick: string := "Quick Learner"
  const BadgeModuleMaster: string := "Module Master"
  const BadgeContestWinner: string := "Contest Winner"

  predicate Ascending(ts: seq<int>) {
    forall i, j :: 0 <= i < j < |ts| ==> ts[i] <= ts[j]
  }

  /** How many of the thresholds `ts` the amount `xp` has reached. */
  function Reached(ts: seq<int>, xp: int): (n: nat)
    ensures n <= |ts|
  {
    if ts == [] then 0 else Reached(ts[..|ts| - 1], xp) + (if ts[|ts| - 1] <= xp then 1 else 0)
  }

  /** The level of a cumulative XP: the number of thresholds it has reached,
      and never below 1 (so negative XP is level 1 too). */
  function Level(xp: int): (level: int)
    ensures 1 <= level <= |Thresholds|
  {
    var n := Reached(Thresholds, xp);
    if n == 0 then 1 else n
  }

  /** `level_for_xp`: walk the thresholds, remembering the (1-based) index of
      the last one reached. */
  method LevelForXp(xp: int) returns (level: int)
    ensures level == Level(xp)
  {
    level := 1;
    var i := 0;
    while i < |Thresholds|
      invariant 0 <= i <= |Thresholds|
      invariant level == (if Reached(Thresholds[..i], xp) == 0 then 1 else Reached(Thresholds[..i], xp))
    {
      assert Thresholds[..i + 1][..i] == Thresholds[..i];
      if xp >= Thresholds[i] {
        AllReached(Thresholds[..i + 1], xp);
        level := i + 1;
      }
      i := i + 1;
    }
    assert Thresholds[..i] == Thresholds;
  }

  /** When every threshold is at most `xp`, all of them are reached. */
  lemma {:induction false} AllReached(ts: seq<int>, xp: int)
    requires Ascending(ts) && ts != [] && ts[|ts| - 1] <= xp
    ensures Reached(ts, xp) == |ts|
  {
    if |ts| > 1 {
      AllReached(ts[..|ts| - 1], xp);
    }
  }

  /** Reaching more XP never reaches fewer thresholds. */
  lemma {:induction false} ReachedMonotone(ts: seq<int>, x1: int, x2: int)
    requires x1 <= x2
    ensures Reached(ts, x1) <= Reached(ts, x2)
  {
    if ts != [] {
      ReachedMonotone(ts[..|ts| - 1], x1, x2);
    }
  }

  /** On ascending thresholds, exactly `k` are reached when the `k`-th is
      reached and the next one is not. */
  lemma {:induction false} ReachedExactly(ts: seq<int>, xp: int, k: nat)
    requires Ascending(ts) && k <= |ts|
    ensures Reached(ts, xp) == k <==> (k == 0 || ts[k - 1] <= xp) && (k == |ts| || xp < ts[k])
  {
    if ts != [] {
      var init := ts[..|ts| - 1];
      var last := ts[|ts| - 1];
      if k == |ts| {
        if last <= xp {
          AllReached(ts, xp);
        }
      } else {
        ReachedExactly(init, xp, k);
        if last <= xp {
          AllReached(ts, xp);
          if k < |init| {
            assert ts[k] <= last;
          }
        } else if k == |init| && k > 0 {
          assert init[k - 1] <= xp <==> ts[k - 1] <= xp;
        }
      }
    }
  }

  /** Level `i` holds exactly on the band from threshold `i` (any XP below
      100 for level 1) up to, not including, threshold `i + 1`. */
  lemma LevelBand(xp: int, i: int)
    requires 1 <= i <= |Thresholds|
    ensures Level(xp) == i <==>
              (i == 1 || Thresholds[i - 1] <= xp) && (i == |Thresholds| || xp < Thresholds[i])
  {
    ReachedExactly(Thresholds, xp, 0);
    ReachedExactly(Thresholds, xp, 1);
    ReachedExactly(Thresholds, xp, i);
  }

  /** More XP never means a lower level. */
  lemma LevelMonotone(x1: int, x2: int)
    requires x1 <= x2
    ensures Level(x1) <= Level(x2)
  {
    ReachedMonotone(Thresholds, x1, x2);
  }

  /** Below 100 XP (zero and negative amounts included) the level is 1; from
      700 XP on it is 6. */
  lemma LevelExtremes(xp: int)
    ensures xp < 100 ==> Level(xp) == 1
    ensures xp >= 700 ==> Level(xp) == 6
  {
    LevelBand(xp, 1);
    LevelBand(xp, 6);
  }

  lemma BadgeNamesDistinct()
    ensures BadgePerfect != BadgeQuick && BadgePerfect != BadgeModuleMaster
    ensures BadgePerfect != BadgeContestWinner && BadgeQuick != BadgeModuleMaster
    ensures BadgeQuick != BadgeContestWinner && BadgeModuleMaster != BadgeContestWinner
  {
  }
}
