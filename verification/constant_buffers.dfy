/**
 Constant-buffer bookkeeping: `panfrost_set_constant_buffer`, which keeps the
 per-stage enabled and dirty masks in step with the bound buffers, and
 `panfrost_ubo_count`, which sizes the uniform-buffer table from the enabled
 mask. The masks are C `unsigned`, one bit per buffer slot.
 */
module ConstantBuffers {
  import opened Base

  /** Constant-buffer slots per stage (PIPE_MAX_CONSTANT_BUFFERS). */
  const MAX_CONSTANT_BUFFERS: nat := 32

  /** A bound constant buffer; its contents are not modelled. */
  datatype ConstantBuffer = ConstantBuffer(id: nat)

  datatype StageBuffers = StageBuffers(cb: seq<Option<ConstantBuffer>>, enabledMask: seq<bool>, dirtyMask: seq<bool>)

  predicate WellSized(s: StageBuffers)
  {
    |s.cb| == MAX_CONSTANT_BUFFERS && |s.enabledMask| == MAX_CONSTANT_BUFFERS && |s.dirtyMask| == MAX_CONSTANT_BUFFERS
  }

  /** The enabled mask names exactly the bound slots. */
  predicate EnabledMatchesBound(s: StageBuffers)
    requires WellSized(s)
  {
    forall i | 0 <= i < MAX_CONSTANT_BUFFERS :: s.enabledMask[i] <==> s.cb[i].Some?
  }

  /** `panfrost_set_constant_buffer`: binds `buf` (or unbinds, for `None`) at
      `index` and sets (or clears) that bit in both masks. */
  function SetConstantBuffer(s: StageBuffers, index: nat, buf: Option<ConstantBuffer>): (r: StageBuffers)
    requires WellSized(s) && index < MAX_CONSTANT_BUFFERS
    ensures WellSized(r)
    ensures r.cb[index] == buf
    ensures r.enabledMask[index] == r.dirtyMask[index] == buf.Some?
    ensures forall i | 0 <= i < MAX_CONSTANT_BUFFERS && i != index ::
      r.cb[i] == s.cb[i] && r.enabledMask[i] == s.enabledMask[i] && r.dirtyMask[i] == s.dirtyMask[i]
  {
    StageBuffers(s.cb[index := buf], s.enabledMask[index := buf.Some?], s.dirtyMask[index := buf.Some?])
  }

  /** Every call keeps the enabled mask in step with the bound slots. */
  lemma SetKeepsEnabledMatching(s: StageBuffers, index: nat, buf: Option<ConstantBuffer>)
    requires WellSized(s) && index < MAX_CONSTANT_BUFFERS && EnabledMatchesBound(s)
    ensures EnabledMatchesBound(SetConstantBuffer(s, index, buf))
  {
  }

  /** Leading zero bits of a mask whose last element is its most significant bit. */
  function Clz(m: seq<bool>): (n: nat)
    ensures n <= |m|
    ensures forall j | |m| - n <= j < |m| :: !m[j]
    ensures n < |m| ==> m[|m| - 1 - n]
    decreases |m|
  {
    if |m| == 0 then 0
    else if m[|m| - 1] then 0
    else 1 + Clz(m[..|m| - 1])
  }

  /** `panfrost_ubo_count`: one past the highest enabled slot, counting slot 0
      as always enabled (it carries the system values). */
  function UboCount(enabledMask: seq<bool>): (n: nat)
    requires |enabledMask| == MAX_CONSTANT_BUFFERS
    ensures 1 <= n <= MAX_CONSTANT_BUFFERS
    ensures n == 1 || enabledMask[n - 1]
    ensures forall j | n <= j < MAX_CONSTANT_BUFFERS :: !enabledMask[j]
  {
    var m := enabledMask[0 := true];
    var z := Clz(m);
    assert m[0];
    assert z < |m|;
    assert forall j | MAX_CONSTANT_BUFFERS - z <= j < MAX_CONSTANT_BUFFERS :: m[j] == enabledMask[j];
    MAX_CONSTANT_BUFFERS - z
  }

  /** The count is the least table size that covers every enabled slot and
      slot 0. */
  lemma UboCountIsLeastCover(enabledMask: seq<bool>, n: nat)
    requires |enabledMask| == MAX_CONSTANT_BUFFERS
    requires 1 <= n <= MAX_CONSTANT_BUFFERS
    ensures (forall j | 0 <= j < MAX_CONSTANT_BUFFERS && enabledMask[j] :: j < n) <==> UboCount(enabledMask) <= n
  {
  }

  /** After binding slot `index`, the uniform table reaches it. */
  lemma BoundSlotIsCounted(s: StageBuffers, index: nat, buf: ConstantBuffer)
    requires WellSized(s) && index < MAX_CONSTANT_BUFFERS
    ensures index < UboCount(SetConstantBuffer(s, index, Some(buf)).enabledMask)
  {
  }
}
