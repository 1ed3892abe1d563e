/**
 Stream-output remapping (`update_so_info`).

 Gallium numbers the outputs a shader captures for transform feedback by
 "condensed slots": the written outputs are numbered 0, 1, 2, ... in order of
 their varying slot, with the gaps removed. The driver wants the real varying
 slot, so it rebuilds the numbering from the compiled variant's 64-bit
 `outputs_written` mask, rewrites every capture record, and collects the mask
 of captured real slots.
 */
module StreamOut {
  import opened Base

  /** A varying slot: `register_index` is a 6-bit field. */
  type Slot = x: nat | x < 64

  /** One capture record; `registerIndex` is a condensed slot on the way in
      and a real varying slot on the way out. */
  datatype StreamOutput = StreamOutput(
    registerIndex: Slot,
    startComponent: nat,
    numComponents: nat,
    outputBuffer: nat,
    dstOffset: nat,
    stream: nat)

  /** Number of set bits of `w` strictly below position `p` (the rank of `p`). */
  function CountBelow(w: seq<bool>, p: nat): (n: nat)
    requires p <= |w|
    ensures n <= p
  {
    if p == 0 then 0
    else CountBelow(w, p - 1) + (if w[p - 1] then 1 else 0)
  }

  /** Number of set bits of `w`. */
  function Popcount(w: seq<bool>): nat
  {
    CountBelow(w, |w|)
  }

  lemma {:induction false} CountBelowMonotone(w: seq<bool>, p: nat, q: nat)
    requires p <= q <= |w|
    ensures CountBelow(w, p) <= CountBelow(w, q)
    decreases q - p
  {
    if p < q {
      CountBelowMonotone(w, p, q - 1);
    }
  }

  /** Two distinct set bits have distinct ranks. */
  lemma RankInjective(w: seq<bool>, p: nat, q: nat)
    requires p < |w| && q < |w| && w[p] && w[q]
    requires CountBelow(w, p) == CountBelow(w, q)
    ensures p == q
  {
    if p < q {
      RankStrict(w, p, q);
    } else if q < p {
      RankStrict(w, q, p);
    }
  }

  /** A set bit counts towards the rank of every higher position. */
  lemma RankStrict(w: seq<bool>, p: nat, q: nat)
    requires p < q <= |w| && w[p]
    ensures CountBelow(w, p) < CountBelow(w, q)
  {
    CountBelowMonotone(w, p + 1, q);
  }

  /** The positions `u_bit_scan64` yields, in order, when the scan starts with
      every bit below `from` already cleared: the k-th position yielded is the
      set bit with exactly k set bits between `from` and it. */
  function ScanFrom(w: seq<bool>, from: nat): (s: seq<nat>)
    requires from <= |w|
    ensures |s| + CountBelow(w, from) == Popcount(w)
    ensures forall k | 0 <= k < |s| ::
      from <= s[k] < |w| && w[s[k]] && CountBelow(w, s[k]) == CountBelow(w, from) + k
    decreases |w| - from
  {
    if from == |w| then []
    else
      var rest := ScanFrom(w, from + 1);
      if w[from] then [from] + rest else rest
  }

  /** The scan meets every set bit, lowest first. */
  lemma ScanCompleteSorted(w: seq<bool>, from: nat)
    requires from <= |w|
    ensures forall p | from <= p < |w| && w[p] :: p in ScanFrom(w, from)
    ensures forall a, b | 0 <= a < b < |ScanFrom(w, from)| :: ScanFrom(w, from)[a] < ScanFrom(w, from)[b]
  {
    var s := ScanFrom(w, from);
    forall p | from <= p < |w| && w[p]
      ensures p in s
    {
      CountBelowMonotone(w, from, p);
      CountBelowMonotone(w, p + 1, |w|);
      var k := CountBelow(w, p) - CountBelow(w, from);
      RankInjective(w, p, s[k]);
    }
    forall a, b | 0 <= a < b < |s|
      ensures s[a] < s[b]
    {
      if s[b] <= s[a] {
        CountBelowMonotone(w, s[b], s[a]);
      }
    }
  }

  /** The driver's `reverse_map`: condensed slot k holds the k-th lowest set bit
      of `outputs_written`; the entries past the population count keep their
      zero initialisation. */
  function ReverseMap(w: seq<bool>): (rm: seq<Slot>)
    requires |w| == 64
    ensures |rm| == 64
    ensures forall k | 0 <= k < Popcount(w) :: w[rm[k]] && CountBelow(w, rm[k]) == k
    ensures forall k | Popcount(w) <= k < 64 :: rm[k] == 0
  {
    var s := ScanFrom(w, 0);
    seq(64, k requires 0 <= k < 64 => if k < |s| then s[k] else 0)
  }

  /** The mask with bit `registerIndex` set for every record, the
      `so_outputs |= 1ull << register_index` accumulation. */
  function CaptureMask(outputs: seq<StreamOutput>): (m: seq<bool>)
    ensures |m| == 64
    ensures forall p | 0 <= p < 64 :: m[p] <==> exists i | 0 <= i < |outputs| :: outputs[i].registerIndex == p
    decreases |outputs|
  {
    if |outputs| == 0 then NoBits(64)
    else
      var init := outputs[..|outputs| - 1];
      assert forall i | 0 <= i < |init| :: init[i] == outputs[i];
      CaptureMask(init)[outputs[|outputs| - 1].registerIndex := true]
  }

  datatype SoInfo = SoInfo(outputs: seq<StreamOutput>, mask: seq<bool>)

  /** `update_so_info`: rewrites each record's condensed slot to the real slot
      of that rank in `outputsWritten` (slot 0 past the written count) and
      returns the mask of captured real slots. */
  function UpdateSoInfo(outputs: seq<StreamOutput>, outputsWritten: seq<bool>): (r: SoInfo)
    requires |outputsWritten| == 64
    ensures |r.outputs| == |outputs| && |r.mask| == 64
    ensures forall i | 0 <= i < |outputs| ::
      var c := outputs[i].registerIndex;
      && (c < Popcount(outputsWritten) ==>
            outputsWritten[r.outputs[i].registerIndex]
            && CountBelow(outputsWritten, r.outputs[i].registerIndex) == c)
      && (c >= Popcount(outputsWritten) ==> r.outputs[i].registerIndex == 0)
      && r.outputs[i] == outputs[i].(registerIndex := r.outputs[i].registerIndex)
    ensures forall p | 0 <= p < 64 :: r.mask[p] <==> exists i | 0 <= i < |r.outputs| :: r.outputs[i].registerIndex == p
  {
    var rm := ReverseMap(outputsWritten);
    var remapped := seq(|outputs|, i requires 0 <= i < |outputs| =>
      outputs[i].(registerIndex := rm[outputs[i].registerIndex]));
    SoInfo(remapped, CaptureMask(remapped))
  }

  /** The remapping is determined: a record whose condensed slot is below the
      written count lands on the unique written slot of that rank. */
  lemma RemapIsUnique(outputs: seq<StreamOutput>, outputsWritten: seq<bool>, i: nat, p: nat)
    requires |outputsWritten| == 64 && i < |outputs| && p < 64
    requires outputsWritten[p] && CountBelow(outputsWritten, p) == outputs[i].registerIndex
    ensures UpdateSoInfo(outputs, outputsWritten).outputs[i].registerIndex == p
  {
    var r := UpdateSoInfo(outputs, outputsWritten);
    CountBelowMonotone(outputsWritten, p + 1, 64);
    RankInjective(outputsWritten, p, r.outputs[i].registerIndex);
  }

  /** When the captured outputs are exactly the written ones in order
      (condensed slot k for k below the written count), every written slot is
      captured and nothing else is. */
  lemma CapturingAllWrittenGivesWrittenMask(outputs: seq<StreamOutput>, outputsWritten: seq<bool>)
    requires |outputsWritten| == 64 && |outputs| == Popcount(outputsWritten)
    requires forall i | 0 <= i < |outputs| :: outputs[i].registerIndex == i
    ensures UpdateSoInfo(outputs, outputsWritten).mask == outputsWritten
  {
    var r := UpdateSoInfo(outputs, outputsWritten);
    forall p | 0 <= p < 64
      ensures r.mask[p] == outputsWritten[p]
    {
      if outputsWritten[p] {
        CountBelowMonotone(outputsWritten, p + 1, 64);
        RemapIsUnique(outputs, outputsWritten, CountBelow(outputsWritten, p), p);
      }
    }
  }
}
