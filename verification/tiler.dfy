/**
 The Midgard tiler descriptor (`panfrost_emit_midg_tiler`).

 With vertices to draw, the tiler gets a polygon list sized by the driver's
 heuristics and the whole tiler heap. With none, it is pointed at a dummy
 buffer with an empty heap and switched off: through the DISABLED flag of the
 hierarchy mask when hierarchical tiling is in use, otherwise by the USER
 mask and a hand-written first polygon-list word.

 The flag and size values are the ones of the Midgard descriptor format
 (defined in the driver's headers, not in this model).
 */
module Tiler {
  import opened Base

  /** Flag above the hierarchy levels that switches the tiler off. */
  const TILER_DISABLED: bv16 := 0x1000
  /** Hierarchy mask meaning "user-managed polygon list". */
  const TILER_USER: bv16 := 0xFFF
  /** Size of the smallest polygon-list header. */
  const TILER_MINIMUM_HEADER_SIZE: u32 := 0x200
  /** The word written at the start of the dummy polygon-list body. */
  const DUMMY_BODY_WORD: u32 := 0xa0000000

  /** A buffer object: its GPU address and size. */
  datatype Bo = Bo(gpu: u64, size: u64)

  /** The hierarchy-mask and size heuristics, which live outside this model:
      each takes the framebuffer width and height and the hierarchy flag. */
  datatype Heuristics = Heuristics(
    chooseMask: (nat, nat, nat, bool) -> bv16,
    headerSize: (nat, nat, bv16, bool) -> u32,
    fullSize: (nat, nat, bv16, bool) -> u32)

  /** What the batch provides: the framebuffer size, the tiler heap, the
      dummy buffer, and the polygon-list allocator (size to GPU address). */
  datatype Batch = Batch(width: nat, height: nat, heap: Bo, dummy: Bo, polygonList: u32 -> u64)

  datatype TilerDescriptor = TilerDescriptor(
    polygonListSize: u32,
    hierarchyMask: bv16,
    polygonList: u64,
    polygonListBody: u64,
    heapStart: u64,
    heapEnd: u64)

  /** A 32-bit store into the dummy buffer, `offset` bytes past its start. */
  datatype DummyWrite = DummyWrite(offset: u32, value: u32)

  datatype TilerResult = TilerResult(desc: TilerDescriptor, write: Option<DummyWrite>)

  /** The descriptor for `vertexCount` vertices; `noHierTiling` is the
      MIDGARD_NO_HIER_TILING quirk. */
  function EmitMidgTiler(h: Heuristics, b: Batch, noHierTiling: bool, vertexCount: nat): (r: TilerResult)
    ensures var hierarchy := !noHierTiling;
      var mask := h.chooseMask(b.width, b.height, vertexCount, hierarchy);
      var header := h.headerSize(b.width, b.height, mask, hierarchy);
      var full := h.fullSize(b.width, b.height, mask, hierarchy);
      && (vertexCount > 0 ==>
            && r.desc == TilerDescriptor(full, mask, b.polygonList(Wrap32(header + full)),
                                         Wrap64(b.polygonList(Wrap32(header + full)) + header),
                                         b.heap.gpu, Wrap64(b.heap.gpu + b.heap.size))
            && r.write.None?)
      && (vertexCount == 0 ==>
            && r.desc.heapStart == r.desc.heapEnd == r.desc.polygonList == b.dummy.gpu
            && r.desc.polygonListBody == Wrap64(b.dummy.gpu + TILER_MINIMUM_HEADER_SIZE)
            && (hierarchy ==> r.desc.hierarchyMask == mask | TILER_DISABLED
                              && r.desc.polygonListSize == full && r.write.None?)
            && (!hierarchy ==> r.desc.hierarchyMask == TILER_USER
                               && r.desc.polygonListSize == TILER_MINIMUM_HEADER_SIZE + 4
                               && r.write == Some(DummyWrite(TILER_MINIMUM_HEADER_SIZE, DUMMY_BODY_WORD))))
  {
    var hierarchy := !noHierTiling;
    var mask := h.chooseMask(b.width, b.height, vertexCount, hierarchy);
    var header := h.headerSize(b.width, b.height, mask, hierarchy);
    var full := h.fullSize(b.width, b.height, mask, hierarchy);
    if vertexCount > 0 then
      var list := b.polygonList(Wrap32(header + full));
      TilerResult(TilerDescriptor(full, mask, list, Wrap64(list + header),
                                  b.heap.gpu, Wrap64(b.heap.gpu + b.heap.size)), None)
    else
      var list := b.dummy.gpu;
      var body := Wrap64(list + TILER_MINIMUM_HEADER_SIZE);
      if hierarchy then
        TilerResult(TilerDescriptor(full, mask | TILER_DISABLED, list, body, list, list), None)
      else
        TilerResult(TilerDescriptor(TILER_MINIMUM_HEADER_SIZE + 4, TILER_USER, list, body, list, list),
                    Some(DummyWrite(TILER_MINIMUM_HEADER_SIZE, DUMMY_BODY_WORD)))
  }

  /** The heap the tiler may use is empty exactly when there is nothing to
      draw (for a non-empty heap that does not wrap the address space). */
  lemma HeapEmptyIffNoVertices(h: Heuristics, b: Batch, noHierTiling: bool, vertexCount: nat)
    requires 0 < b.heap.size && b.heap.gpu + b.heap.size < U64_MOD
    ensures var d := EmitMidgTiler(h, b, noHierTiling, vertexCount).desc;
      d.heapStart == d.heapEnd <==> vertexCount == 0
  {
  }

  /** With vertices, the body follows the header and ends where the allocation
      ends, as long as neither the 32-bit size nor the 64-bit address wraps. */
  lemma BodyFillsAllocation(h: Heuristics, b: Batch, noHierTiling: bool, vertexCount: nat)
    requires vertexCount > 0
    requires var mask := h.chooseMask(b.width, b.height, vertexCount, !noHierTiling);
      var size := h.headerSize(b.width, b.height, mask, !noHierTiling) + h.fullSize(b.width, b.height, mask, !noHierTiling);
      size < U32_MOD && b.polygonList(size) + size < U64_MOD
    ensures var mask := h.chooseMask(b.width, b.height, vertexCount, !noHierTiling);
      var size := h.headerSize(b.width, b.height, mask, !noHierTiling) + h.fullSize(b.width, b.height, mask, !noHierTiling);
      var d := EmitMidgTiler(h, b, noHierTiling, vertexCount).desc;
      d.polygonList == b.polygonList(size)
      && d.polygonList <= d.polygonListBody
      && d.polygonListBody + d.polygonListSize == d.polygonList + size
  {
  }

  /** Disabling a hierarchical tiler sets the DISABLED flag and keeps every
      other bit of the chosen mask. */
  lemma DisabledKeepsLevels(h: Heuristics, b: Batch)
    ensures var mask := h.chooseMask(b.width, b.height, 0, true);
      var d := EmitMidgTiler(h, b, false, 0).desc;
      d.hierarchyMask & TILER_DISABLED != 0
      && d.hierarchyMask & !TILER_DISABLED == mask & !TILER_DISABLED
  {
  }

  /** The hand-written word lands on the first word of the dummy polygon
      list's body, which lies inside the reported list size. */
  lemma DummyWordIsFirstBodyWord(h: Heuristics, b: Batch)
    requires b.dummy.gpu + TILER_MINIMUM_HEADER_SIZE < U64_MOD
    ensures var r := EmitMidgTiler(h, b, true, 0);
      r.write.Some?
      && r.desc.polygonListBody == r.desc.polygonList + r.write.value.offset
      && r.write.value.offset + 4 <= r.desc.polygonListSize
  {
  }
}
