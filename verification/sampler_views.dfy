/**
 `panfrost_set_sampler_views`: replaces the first views of a stage's
 sampler-view table, unbinds the views the previous call bound past the new
 ones, and records how many slots the stage now uses. Views are always set
 starting at slot 0.
 */
module SamplerViews {
  import opened Base

  /** A sampler view; its texture descriptor is not modelled. */
  datatype SamplerView = SamplerView(id: nat)

  /** The table beyond `count` is empty. */
  predicate EmptyFrom(table: seq<Option<SamplerView>>, count: nat)
  {
    forall i | count <= i < |table| :: table[i].None?
  }

  /** Binds `views` into `table`, whose previously used prefix is `count`
      slots long, and returns the new table and count: one past the last
      non-NULL view, or 0. */
  method SetSamplerViews(table: seq<Option<SamplerView>>, count: nat, views: seq<Option<SamplerView>>)
    returns (newTable: seq<Option<SamplerView>>, newCount: nat)
    requires |views| <= |table| && count <= |table|
    ensures |newTable| == |table|
    ensures forall i | 0 <= i < |views| :: newTable[i] == views[i]
    ensures forall i | |views| <= i < count :: newTable[i].None?
    ensures forall i | |views| <= i < |table| && count <= i :: newTable[i] == table[i]
    ensures newCount <= |views|
    ensures newCount == 0 || views[newCount - 1].Some?
    ensures forall i | newCount <= i < |views| :: views[i].None?
    ensures EmptyFrom(table, count) ==> EmptyFrom(newTable, newCount)
  {
    newTable := table;
    newCount := 0;
    var i := 0;
    while i < |views|
      invariant i <= |views| && |newTable| == |table|
      invariant forall k | 0 <= k < i :: newTable[k] == views[k]
      invariant forall k | i <= k < |table| :: newTable[k] == table[k]
      invariant newCount <= i
      invariant newCount == 0 || views[newCount - 1].Some?
      invariant forall k | newCount <= k < i :: views[k].None?
    {
      if views[i].Some? {
        newCount := i + 1;
      }
      newTable := newTable[i := views[i]];
      i := i + 1;
    }
    while i < count
      invariant |views| <= i && |newTable| == |table|
      invariant i <= count || i == |views|
      invariant forall k | 0 <= k < |views| :: newTable[k] == views[k]
      invariant forall k | |views| <= k < i :: newTable[k].None?
      invariant forall k | i <= k < |table| :: newTable[k] == table[k]
    {
      newTable := newTable[i := None];
      i := i + 1;
    }
  }
}
