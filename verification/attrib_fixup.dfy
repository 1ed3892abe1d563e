/**
 The per-draw fix-up of vertex attribute offsets
 (`panfrost_vertex_state_upd_attr_offs`).

 The hardware fetches attribute data from `base + stride * vtx + src_offset`,
 but `base` must be 64-byte aligned, so the driver programs the aligned base
 `base & ~63` and folds the dropped low bits into `src_offset`. Instanced
 attributes in an indexed draw that starts at a non-zero vertex are shifted
 back by `stride * start`. All offset arithmetic is C `unsigned`, so it wraps
 modulo 2^32.
 */
module AttribFixup {
  import opened Base

  /** A vertex element as the state tracker gave it (the canonical copy). */
  datatype PipeElement = PipeElement(
    srcOffset: u32,
    instanceDivisor: u32,
    vertexBufferIndex: nat,
    srcFormat: nat)

  /** The driver's hardware attribute record; only `srcOffset` is touched here. */
  datatype HwAttribute = HwAttribute(index: nat, format: nat, swizzle: nat, srcOffset: u32)

  /** A bound vertex-elements state: `pipe[i]` and `hw[i]` describe element i;
      `hw` is the fixed-size hardware array, so it can be longer than `pipe`. */
  datatype VertexState = VertexState(pipe: seq<PipeElement>, hw: seq<HwAttribute>)

  /** A bound vertex buffer; `stride` is a 16-bit field. */
  datatype VertexBuffer = VertexBuffer(stride: nat, bufferOffset: u32)

  /** Every element has a hardware record and names a bound buffer slot. */
  predicate WellFormed(vs: VertexState, buffers: seq<VertexBuffer>)
  {
    && |vs.pipe| <= |vs.hw|
    && (forall i | 0 <= i < |vs.pipe| :: vs.pipe[i].vertexBufferIndex < |buffers|)
    && (forall b | 0 <= b < |buffers| :: buffers[b].stride < 0x1_0000)
  }

  /** The instance correction applies to element `e` of this draw. */
  predicate InstanceShifted(e: PipeElement, instanceCount: u32, start: u32)
  {
    e.instanceDivisor != 0 && instanceCount > 1 && start != 0
  }

  /** The `src_offset` programmed for element `e` read from `buf`. */
  function FixedSrcOffset(e: PipeElement, buf: VertexBuffer, instanceCount: u32, start: u32): u32
  {
    var folded := Wrap32(e.srcOffset + buf.bufferOffset % 64);
    if InstanceShifted(e, instanceCount, start) then Wrap32(folded - buf.stride * start) else folded
  }

  /** The fix-up: does nothing without a vertex state; otherwise recomputes
      `hw[i].srcOffset` from `pipe[i]` for every element. */
  function UpdAttrOffs(vs: Option<VertexState>, buffers: seq<VertexBuffer>, instanceCount: u32, start: u32)
    : (r: Option<VertexState>)
    requires vs.Some? ==> WellFormed(vs.value, buffers)
    ensures vs.None? ==> r.None?
    ensures vs.Some? ==> r.Some? && WellFormed(r.value, buffers)
    ensures vs.Some? ==> r.value.pipe == vs.value.pipe && |r.value.hw| == |vs.value.hw|
    ensures vs.Some? ==> forall i | 0 <= i < |vs.value.hw| ::
      r.value.hw[i] == vs.value.hw[i].(srcOffset := r.value.hw[i].srcOffset)
    ensures vs.Some? ==> forall i | |vs.value.pipe| <= i < |vs.value.hw| :: r.value.hw[i] == vs.value.hw[i]
  {
    match vs
    case None => None
    case Some(v) =>
      Some(v.(hw := seq(|v.hw|, i requires 0 <= i < |v.hw| =>
        if i < |v.pipe| then
          var e := v.pipe[i];
          v.hw[i].(srcOffset := FixedSrcOffset(e, buffers[e.vertexBufferIndex], instanceCount, start))
        else v.hw[i])))
  }

  /** The byte address the hardware fetches from, modulo 2^32. */
  function FetchAddress(base: int, stride: nat, vtx: int, srcOffset: int): u32
  {
    Wrap32(base + stride * vtx + srcOffset)
  }

  /** `base & ~63`: the 64-byte aligned base the driver programs. */
  function AlignedBase(base: nat): nat
  {
    base - base % 64
  }

  /** The address equation: for a buffer whose storage starts 64-byte aligned,
      programming the aligned base with the fixed offset fetches from the same
      address as the unaligned base with the original offset; for a shifted
      instanced element it fetches what the original would at `vtx - start`. */
  lemma AddressPreserved(vs: VertexState, buffers: seq<VertexBuffer>, instanceCount: u32, start: u32,
                         i: nat, bo: nat, vtx: int)
    requires WellFormed(vs, buffers) && i < |vs.pipe|
    requires bo % 64 == 0
    ensures
      var e := vs.pipe[i];
      var buf := buffers[e.vertexBufferIndex];
      var base := bo + buf.bufferOffset;
      var hw := UpdAttrOffs(Some(vs), buffers, instanceCount, start).value.hw[i];
      FetchAddress(AlignedBase(base), buf.stride, vtx, hw.srcOffset)
        == if InstanceShifted(e, instanceCount, start)
           then FetchAddress(base, buf.stride, vtx - start, e.srcOffset)
           else FetchAddress(base, buf.stride, vtx, e.srcOffset)
  {
    var e := vs.pipe[i];
    var buf := buffers[e.vertexBufferIndex];
    var shift := if InstanceShifted(e, instanceCount, start) then buf.stride * start else 0;
    AlignedSum(bo, buf.bufferOffset, e.srcOffset, buf.stride * vtx, shift);
    if InstanceShifted(e, instanceCount, start) {
      assert buf.stride * (vtx - start) == buf.stride * vtx - buf.stride * start;
    }
  }

  /** The arithmetic core of the address equation, with `stride * vtx` as `m`. */
  lemma AlignedSum(bo: nat, off: nat, src: int, m: int, shift: int)
    requires bo % 64 == 0
    ensures Wrap32(AlignedBase(bo + off) + m + Wrap32(Wrap32(src + off % 64) - shift))
        == Wrap32(bo + off + m + src - shift)
  {
  }

  /** The correction changes the offset exactly when it applies and
      `stride * start` is not a multiple of 2^32. */
  lemma CorrectionIff(e: PipeElement, buf: VertexBuffer, instanceCount: u32, start: u32)
    ensures FixedSrcOffset(e, buf, instanceCount, start) != Wrap32(e.srcOffset + buf.bufferOffset % 64)
        <==> InstanceShifted(e, instanceCount, start) && Wrap32(buf.stride * start) != 0
  {
  }

  /** Only the canonical `pipe` copy is read, so a later draw overwrites an
      earlier fix-up completely: offsets never compound. */
  lemma LastDrawWins(vs: VertexState, b1: seq<VertexBuffer>, ic1: u32, s1: u32,
                     b2: seq<VertexBuffer>, ic2: u32, s2: u32)
    requires WellFormed(vs, b1) && WellFormed(vs, b2)
    ensures UpdAttrOffs(UpdAttrOffs(Some(vs), b1, ic1, s1), b2, ic2, s2) == UpdAttrOffs(Some(vs), b2, ic2, s2)
  {
    var once := UpdAttrOffs(Some(vs), b1, ic1, s1).value;
    var a := UpdAttrOffs(Some(once), b2, ic2, s2).value;
    var b := UpdAttrOffs(Some(vs), b2, ic2, s2).value;
    assert a.hw == b.hw;
  }

  /** Running the fix-up twice for the same draw is the same as running it once. */
  lemma Idempotent(vs: Option<VertexState>, buffers: seq<VertexBuffer>, instanceCount: u32, start: u32)
    requires vs.Some? ==> WellFormed(vs.value, buffers)
    ensures UpdAttrOffs(UpdAttrOffs(vs, buffers, instanceCount, start), buffers, instanceCount, start)
        == UpdAttrOffs(vs, buffers, instanceCount, start)
  {
    if vs.Some? {
      LastDrawWins(vs.value, buffers, instanceCount, start, buffers, instanceCount, start);
    }
  }
}
