/** The fixed table of split regions for the climb, in the order in which a
    run passes through them. */
module Splits {
  import opened Geometry

  /** Number of split regions; the split cursor never tests an index at or
      beyond it. */
  const SplitCount: nat := 10

  /** Tutorial, Chimney, Slide, Furni, Orange, Anvil, Bucket, Ice, Tower,
      Space, each given as (left, right, bottom, top). */
  const SPLITS: seq<Rect> := [
    NewRect(-12.0, -8.0, 7.0, 22.0),
    NewRect(24.0, 28.0, 82.0, 96.0),
    NewRect(12.0, 18.0, 123.0, 128.0),
    NewRect(4.0, 6.0, 162.0, 167.0),
    NewRect(18.0, 24.0, 216.0, 240.0),
    NewRect(73.0, 77.0, 249.0, 259.0),
    NewRect(18.0, 22.0, 281.0, 295.0),
    NewRect(42.0, 46.0, 317.0, 331.0),
    NewRect(0.0, 200.0, 359.0, 361.0),
    NewRect(0.0, 200.0, 470.0, 472.0)
  ]

  /** The table holds exactly `SplitCount` regions, each with its corners in
      the orientation that `InBounds` expects. */
  lemma SplitsWellFormed()
    ensures |SPLITS| == SplitCount
    ensures forall i :: 0 <= i < |SPLITS| ==> SPLITS[i].WellFormed()
  {
  }

  /** Every region can be entered: some point lies strictly inside it. */
  lemma RegionHasInterior(i: nat)
    requires i < |SPLITS|
    ensures exists p :: InBounds(p, SPLITS[i])
  {
    SplitsWellFormed();
    var m := Midpoint(SPLITS[i]);
  }

  /** The regions climb: each one lies wholly below every later one. */
  lemma SplitsAscend(i: nat, j: nat)
    requires i < j < |SPLITS|
    ensures SPLITS[i].Top() <= SPLITS[j].Bottom()
  {
  }

  /** No point lies inside two different regions of the table, so at most
      one region can ever match a position. */
  lemma RegionsDisjoint(p: Vector2, i: nat, j: nat)
    requires i < |SPLITS| && j < |SPLITS| && i != j
    requires InBounds(p, SPLITS[i])
    ensures !InBounds(p, SPLITS[j])
  {
    if i < j {
      SplitsAscend(i, j);
      StackedAreDisjoint(p, SPLITS[i], SPLITS[j]);
    } else {
      SplitsAscend(j, i);
      StackedAreDisjoint(p, SPLITS[j], SPLITS[i]);
    }
  }
}
