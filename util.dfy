/**
 * The helpers: the NanoAOD version gates of column declarations, and
 * trigger-object matching, which asks per object whether some trigger
 * object lies within a distance threshold. The distances (the metric
 * table of the two collections) are an input.
 */
module Util {
  import opened Wrappers

  /** `IF_NANO_V9`: the column is declared only for NanoAOD version 9. */
  function IfNanoV9<T>(version: int, column: T): (r: Option<T>)
    ensures r.Some? <==> version == 9
    ensures r.Some? ==> r.value == column
  {
    if version == 9 then Some(column) else None
  }

  /** `IF_NANO_V11`: the column is declared only for NanoAOD version 10 or later. */
  function IfNanoV11<T>(version: int, column: T): (r: Option<T>)
    ensures r.Some? <==> version >= 10
    ensures r.Some? ==> r.value == column
  {
    if version >= 10 then Some(column) else None
  }

  /** The two gates are never both open, and versions up to 8 open neither. */
  lemma NanoGatesExclusive<T>(version: int, column: T)
    ensures !(IfNanoV9(version, column).Some? && IfNanoV11(version, column).Some?)
    ensures version <= 8 ==> IfNanoV9(version, column).None? && IfNanoV11(version, column).None?
  {
  }

  /** The default distance below which two objects match. */
  const DefaultMatchThreshold: real := 0.5

  /** `ak.any(row < threshold)`: some distance in the row is strictly below the threshold. */
  function AnyBelow(row: seq<real>, threshold: real): (r: bool)
    ensures r <==> exists j :: 0 <= j < |row| && row[j] < threshold
    decreases |row|
  {
    if row == [] then false
    else if row[0] < threshold then true
    else
      var rest := AnyBelow(row[1..], threshold);
      assert forall j :: 1 <= j < |row| ==> row[j] == row[1..][j - 1];
      rest
  }

  /**
   * `trigger_object_matching` for one event: `dr[i][j]` is the distance
   * between object `i` of the first collection and object `j` of the
   * second; object `i` matches iff some distance in its row is strictly
   * below the threshold, which is 0.5 unless the caller gives one.
   */
  function TriggerObjectMatching(dr: seq<seq<real>>, threshold: real := DefaultMatchThreshold): (r: seq<bool>)
    ensures |r| == |dr|
    ensures forall i :: 0 <= i < |dr| ==>
      (r[i] <==> exists j :: 0 <= j < |dr[i]| && dr[i][j] < threshold)
  {
    seq(|dr|, i requires 0 <= i < |dr| => AnyBelow(dr[i], threshold))
  }

  /** With no trigger objects (every row empty) no object matches. */
  lemma NoTriggerObjectsNoMatch(dr: seq<seq<real>>, threshold: real)
    requires forall i :: 0 <= i < |dr| ==> dr[i] == []
    ensures forall i :: 0 <= i < |dr| ==> !TriggerObjectMatching(dr, threshold)[i]
  {
  }

  /** A distance equal to the threshold does not match: the comparison is strict. */
  lemma ThresholdIsStrict(threshold: real)
    ensures TriggerObjectMatching([[threshold]], threshold) == [false]
  {
    assert !AnyBelow([threshold], threshold);
  }

  /**
   * Without an explicit threshold, an object 0.4 away from a trigger object
   * matches and one exactly 0.5 away does not.
   */
  lemma DefaultThresholdIsHalf()
    ensures TriggerObjectMatching([[1.0, 0.4], [0.5]]) == [true, false]
  {
    assert AnyBelow([1.0, 0.4], 0.5) by {
      assert [1.0, 0.4][1] < 0.5;
    }
    assert !AnyBelow([0.5], 0.5);
  }
}
