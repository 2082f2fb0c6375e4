/**
  The territory of `src/castle.rs`: a square reach around a fixed centre
  whose radius grows by two each frame in which at least one "number
  filled" event arrived, announcing each growth with one expand event.
 */
module Castle {

  /** The `TerritoryInfo` resource, without its floating-point bomb percentage. */
  datatype TerritoryInfo = TerritoryInfo(radius: int, x: nat, y: nat)

  /** The radius is odd and at least 1, so the reach is a square of odd side around the centre. */
  predicate ValidTerritory(info: TerritoryInfo) {
    info.radius >= 1 && info.radius % 2 == 1
  }

  /** `TerritoryInfo::new`: radius 1 around (10, 10). */
  function NewTerritory(): (info: TerritoryInfo)
    ensures ValidTerritory(info) && info.radius == 1
    ensures info.x == 10 && info.y == 10
  {
    TerritoryInfo(1, 10, 10)
  }

  /** The territory after one frame, with the events left pending and the expand events sent. */
  datatype Filled = Filled(info: TerritoryInfo, pendingFilled: nat, expandEvents: nat)

  /**
    `number_filled`: when any "number filled" events are pending, however
    many, they are all consumed, the radius grows by exactly 2 and one
    expand event is sent; with none pending nothing happens. The centre is
    never moved.
   */
  function NumberFilled(info: TerritoryInfo, pendingFilled: nat): (r: Filled)
    ensures r.info.x == info.x && r.info.y == info.y
    ensures r.pendingFilled == 0
    ensures pendingFilled == 0 ==> r.info == info && r.expandEvents == 0
    ensures pendingFilled > 0 ==> r.info.radius == info.radius + 2 && r.expandEvents == 1
    ensures ValidTerritory(info) ==> ValidTerritory(r.info)
  {
    if pendingFilled > 0 then
      Filled(info.(radius := info.radius + 2), 0, 1)
    else
      Filled(info, 0, 0)
  }

  /** A batch of ten events has the same effect as a single one. */
  lemma BatchSizeIrrelevant(info: TerritoryInfo, a: nat, b: nat)
    requires a > 0 && b > 0
    ensures NumberFilled(info, a) == NumberFilled(info, b)
  {
  }

  /** Number of frames in `batches` (events pending per frame) with at least one event. */
  function NonEmptyBatches(batches: seq<nat>): nat {
    if |batches| == 0 then 0
    else NonEmptyBatches(batches[..|batches| - 1]) + (if batches[|batches| - 1] > 0 then 1 else 0)
  }

  /** The territory and the expand events sent so far, across many frames. */
  datatype History = History(info: TerritoryInfo, expandEvents: nat)

  /** Runs `number_filled` once per frame, with `batches[k]` events pending in frame `k`. */
  function RunFrames(info: TerritoryInfo, batches: seq<nat>): History {
    if |batches| == 0 then History(info, 0)
    else
      var before := RunFrames(info, batches[..|batches| - 1]);
      var step := NumberFilled(before.info, batches[|batches| - 1]);
      History(step.info, before.expandEvents + step.expandEvents)
  }

  /**
    Over any sequence of frames the radius grows by exactly 2 per frame that
    had events and the same number of expand events is sent; the centre
    stays put.
   */
  lemma {:induction false} RunFramesGrowth(info: TerritoryInfo, batches: seq<nat>)
    ensures var h := RunFrames(info, batches);
            && h.info.radius == info.radius + 2 * NonEmptyBatches(batches)
            && h.expandEvents == NonEmptyBatches(batches)
            && h.info.x == info.x && h.info.y == info.y
  {
    if |batches| > 0 {
      RunFramesGrowth(info, batches[..|batches| - 1]);
    }
  }

  /**
    From a new territory the radius is always odd, at least 1, and never
    shrinks from one frame to the next.
   */
  lemma {:induction false} RadiusInvariant(batches: seq<nat>, n: nat)
    requires n <= |batches|
    ensures ValidTerritory(RunFrames(NewTerritory(), batches).info)
    ensures RunFrames(NewTerritory(), batches[..n]).info.radius <= RunFrames(NewTerritory(), batches).info.radius
  {
    RunFramesGrowth(NewTerritory(), batches);
    RunFramesGrowth(NewTerritory(), batches[..n]);
    NonEmptyPrefix(batches, n);
    assert (1 + 2 * NonEmptyBatches(batches)) % 2 == 1;
  }

  /** A prefix has no more non-empty frames than the whole sequence. */
  lemma {:induction false} NonEmptyPrefix(batches: seq<nat>, n: nat)
    requires n <= |batches|
    ensures NonEmptyBatches(batches[..n]) <= NonEmptyBatches(batches)
    decreases |batches|
  {
    if n < |batches| {
      var init := batches[..|batches| - 1];
      assert batches[..n] == init[..n];
      NonEmptyPrefix(init, n);
    } else {
      assert batches[..n] == batches;
    }
  }
}
