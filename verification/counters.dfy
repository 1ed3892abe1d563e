/**
 Driver-side counters: the primitive statistics behind the
 PRIMITIVES_GENERATED and PRIMITIVES_EMITTED queries, the queries themselves,
 and the stream-output buffer offsets.

 The primitive counters are `uint64_t` and the stream-output offsets
 `unsigned`, so every increment wraps.
 */
module Counters {
  import opened Base

  /** Stream-output buffers a context can bind (PIPE_MAX_SO_BUFFERS). */
  const MAX_SO_BUFFERS: nat := 4

  /** The `uint32_t`-sized `(unsigned)-1` that means "append" in an offset array. */
  const APPEND_OFFSET: u32 := 0xFFFF_FFFF

  datatype Stats = Stats(activeQueries: bool, primsGenerated: u64, tfPrimsGenerated: u64)

  datatype Streamout = Streamout(numTargets: nat, offsets: seq<u32>)

  predicate ValidStreamout(so: Streamout)
  {
    so.numTargets <= MAX_SO_BUFFERS && |so.offsets| == MAX_SO_BUFFERS
  }

  /** `panfrost_statistics_record`: adds the draw's primitive count (computed
      by the caller) while queries are active, and to the transform-feedback
      counter only when stream-output targets are bound. */
  function StatisticsRecord(s: Stats, numTargets: nat, prims: u32): (r: Stats)
    ensures r.activeQueries == s.activeQueries
    ensures !s.activeQueries ==> r == s
    ensures s.activeQueries ==> r.primsGenerated == Wrap64(s.primsGenerated + prims)
    ensures r.tfPrimsGenerated
        == if s.activeQueries && numTargets != 0 then Wrap64(s.tfPrimsGenerated + prims) else s.tfPrimsGenerated
  {
    if !s.activeQueries then s
    else
      var s1 := s.(primsGenerated := Wrap64(s.primsGenerated + prims));
      if numTargets == 0 then s1 else s1.(tfPrimsGenerated := Wrap64(s.tfPrimsGenerated + prims))
  }

  /** One recorded draw: the number of bound targets and the primitive count. */
  datatype DrawRecord = DrawRecord(numTargets: nat, prims: u32)

  function RecordAll(s: Stats, draws: seq<DrawRecord>): Stats
    decreases |draws|
  {
    if |draws| == 0 then s
    else RecordAll(StatisticsRecord(s, draws[0].numTargets, draws[0].prims), draws[1..])
  }

  function SumPrims(draws: seq<DrawRecord>): nat
    decreases |draws|
  {
    if |draws| == 0 then 0 else draws[0].prims + SumPrims(draws[1..])
  }

  function SumCapturedPrims(draws: seq<DrawRecord>): nat
    decreases |draws|
  {
    if |draws| == 0 then 0
    else (if draws[0].numTargets != 0 then draws[0].prims else 0) + SumCapturedPrims(draws[1..])
  }

  /** Over a run of draws with queries active, the counters advance by the sum
      of the draws' primitives (captured ones for the transform-feedback
      counter), modulo 2^64; with queries inactive they do not move. */
  lemma {:induction false} RecordAllSums(s: Stats, draws: seq<DrawRecord>)
    ensures var r := RecordAll(s, draws);
      && r.activeQueries == s.activeQueries
      && (s.activeQueries ==> r.primsGenerated == Wrap64(s.primsGenerated + SumPrims(draws)))
      && (s.activeQueries ==> r.tfPrimsGenerated == Wrap64(s.tfPrimsGenerated + SumCapturedPrims(draws)))
      && (!s.activeQueries ==> r == s)
    decreases |draws|
  {
    if |draws| > 0 {
      var d := draws[0];
      var s1 := StatisticsRecord(s, d.numTargets, d.prims);
      RecordAllSums(s1, draws[1..]);
      if s.activeQueries {
        WrapAdd64(s.primsGenerated + d.prims, SumPrims(draws[1..]));
        WrapAdd64(s.tfPrimsGenerated + (if d.numTargets != 0 then d.prims else 0), SumCapturedPrims(draws[1..]));
      }
    }
  }

  lemma WrapAdd64(a: int, b: int)
    ensures Wrap64(Wrap64(a) + b) == Wrap64(a + b)
  {
  }

  datatype QueryType =
    | OcclusionCounter
    | OcclusionPredicate
    | OcclusionPredicateConservative
    | PrimitivesGenerated
    | PrimitivesEmitted
    | OtherQuery

  /** A query; `start` and `end` are only meaningful for the primitive queries. */
  datatype Query = Query(qtype: QueryType, start: u64, end: u64)

  /** `panfrost_begin_query` for the counters: snapshots the counter the query reads. */
  function BeginQuery(q: Query, s: Stats): (r: Query)
    ensures r.qtype == q.qtype && r.end == q.end
    ensures r.start == match q.qtype
      case PrimitivesGenerated => s.primsGenerated
      case PrimitivesEmitted => s.tfPrimsGenerated
      case _ => q.start
  {
    match q.qtype
    case PrimitivesGenerated => q.(start := s.primsGenerated)
    case PrimitivesEmitted => q.(start := s.tfPrimsGenerated)
    case _ => q
  }

  /** `panfrost_end_query` for the counters: snapshots the counter again. */
  function EndQuery(q: Query, s: Stats): (r: Query)
    ensures r.qtype == q.qtype && r.start == q.start
    ensures r.end == match q.qtype
      case PrimitivesGenerated => s.primsGenerated
      case PrimitivesEmitted => s.tfPrimsGenerated
      case _ => q.end
  {
    match q.qtype
    case PrimitivesGenerated => q.(end := s.primsGenerated)
    case PrimitivesEmitted => q.(end := s.tfPrimsGenerated)
    case _ => q
  }

  /** The primitive-query result `end - start` in `uint64_t`; other query
      types read GPU memory, which is outside this model. */
  function QueryResult(q: Query): (r: Option<u64>)
    ensures r.Some? <==> q.qtype == PrimitivesGenerated || q.qtype == PrimitivesEmitted
    ensures r.Some? ==> Wrap64(q.start + r.value) == q.end
  {
    if q.qtype == PrimitivesGenerated || q.qtype == PrimitivesEmitted then Some(Wrap64(q.end - q.start))
    else None
  }

  /** A primitives query opened and closed around a run of draws (queries
      active throughout) reports the primitives those draws generated, or
      captured for PRIMITIVES_EMITTED, modulo 2^64. */
  lemma QueryCountsDrawsBetween(q: Query, s: Stats, draws: seq<DrawRecord>)
    requires s.activeQueries
    requires q.qtype == PrimitivesGenerated || q.qtype == PrimitivesEmitted
    ensures var q1 := EndQuery(BeginQuery(q, s), RecordAll(s, draws));
      QueryResult(q1) == Some(Wrap64(if q.qtype == PrimitivesGenerated then SumPrims(draws) else SumCapturedPrims(draws)))
  {
    var r := RecordAll(s, draws);
    RecordAllSums(s, draws);
    var q1 := EndQuery(BeginQuery(q, s), r);
    if q.qtype == PrimitivesGenerated {
      assert q1.start == s.primsGenerated && q1.end == r.primsGenerated;
      ResultOfSnapshots(q1, SumPrims(draws));
    } else {
      assert q1.start == s.tfPrimsGenerated && q1.end == r.tfPrimsGenerated;
      ResultOfSnapshots(q1, SumCapturedPrims(draws));
    }
  }

  lemma ResultOfSnapshots(q: Query, n: nat)
    requires q.qtype == PrimitivesGenerated || q.qtype == PrimitivesEmitted
    requires q.end == Wrap64(q.start + n)
    ensures QueryResult(q) == Some(Wrap64(n))
  {
    WrapDiff64(q.start, n);
  }

  /** Subtracting the starting value back out of a wrapped sum. */
  lemma WrapDiff64(a: int, n: int)
    ensures Wrap64(Wrap64(a + n) - a) == Wrap64(n)
  {
  }

  /** `panfrost_update_streamout_offsets`: every bound target's offset advances
      by the draw's stream-output vertex count (computed by the caller). */
  function UpdateStreamoutOffsets(so: Streamout, count: u32): (r: Streamout)
    requires ValidStreamout(so)
    ensures ValidStreamout(r) && r.numTargets == so.numTargets
    ensures forall i | 0 <= i < MAX_SO_BUFFERS ::
      r.offsets[i] == if i < so.numTargets then Wrap32(so.offsets[i] + count) else so.offsets[i]
  {
    so.(offsets := seq(MAX_SO_BUFFERS, i requires 0 <= i < MAX_SO_BUFFERS =>
      if i < so.numTargets then Wrap32(so.offsets[i] + count) else so.offsets[i]))
  }

  /** Two draws advance the offsets as one draw of the combined count would:
      every bound target moves by the same total. */
  lemma StreamoutOffsetsAdd(so: Streamout, c1: u32, c2: u32)
    requires ValidStreamout(so)
    ensures UpdateStreamoutOffsets(UpdateStreamoutOffsets(so, c1), c2) == UpdateStreamoutOffsets(so, Wrap32(c1 + c2))
  {
    var a := UpdateStreamoutOffsets(UpdateStreamoutOffsets(so, c1), c2);
    var b := UpdateStreamoutOffsets(so, Wrap32(c1 + c2));
    forall i | 0 <= i < MAX_SO_BUFFERS
      ensures a.offsets[i] == b.offsets[i]
    {
      if i < so.numTargets {
        WrapAdd32(so.offsets[i] + c1, c2);
        WrapAdd32(c1 + c2, so.offsets[i]);
      }
    }
  }

  lemma WrapAdd32(a: int, b: int)
    ensures Wrap32(Wrap32(a) + b) == Wrap32(a + b)
  {
  }

  /** `panfrost_set_stream_output_targets` for the offsets: the first `n`
      targets become bound, taking the given offset unless it is
      `(unsigned)-1`, which keeps the previous one (append). */
  function SetStreamOutputTargets(so: Streamout, n: nat, offsets: seq<u32>): (r: Streamout)
    requires ValidStreamout(so) && n <= MAX_SO_BUFFERS && n <= |offsets|
    ensures ValidStreamout(r) && r.numTargets == n
    ensures forall i | 0 <= i < MAX_SO_BUFFERS ::
      r.offsets[i] == if i < n && offsets[i] != APPEND_OFFSET then offsets[i] else so.offsets[i]
  {
    Streamout(n, seq(MAX_SO_BUFFERS, i requires 0 <= i < MAX_SO_BUFFERS =>
      if i < n && offsets[i] != APPEND_OFFSET then offsets[i] else so.offsets[i]))
  }

  /** Rebinding the same targets in append mode after some draws resumes
      where those draws left off. */
  lemma AppendResumes(so: Streamout, count: u32)
    requires ValidStreamout(so)
    ensures var drawn := UpdateStreamoutOffsets(so, count);
      SetStreamOutputTargets(drawn, so.numTargets, seq(MAX_SO_BUFFERS, _ => APPEND_OFFSET)) == drawn
  {
    var drawn := UpdateStreamoutOffsets(so, count);
    var r := SetStreamOutputTargets(drawn, so.numTargets, seq(MAX_SO_BUFFERS, _ => APPEND_OFFSET));
    assert r.offsets == drawn.offsets;
  }
}
