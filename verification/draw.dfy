/**
 The decision half of `panfrost_draw_vbo`: whether a draw is dropped by the
 scissor, handed to a software fallback, or committed to the hardware with
 which primitive mode, and the context state a committed draw updates. The
 descriptor emission that follows a commit is outside this model.
 */
module Draw {
  import opened Base
  import opened PipeState
  import opened Counters

  /** Gallium primitive types, in `enum pipe_prim_type` order. */
  datatype PrimType =
    | Points | Lines | LineLoop | LineStrip | Triangles | TriangleStrip | TriangleFan
    | Quads | QuadStrip | Polygon
    | LinesAdjacency | LineStripAdjacency | TrianglesAdjacency | TriangleStripAdjacency
    | Patches

  /** The enumerator value of a primitive type. */
  function PrimIndex(m: PrimType): nat
  {
    match m
    case Points => 0 case Lines => 1 case LineLoop => 2 case LineStrip => 3
    case Triangles => 4 case TriangleStrip => 5 case TriangleFan => 6
    case Quads => 7 case QuadStrip => 8 case Polygon => 9
    case LinesAdjacency => 10 case LineStripAdjacency => 11
    case TrianglesAdjacency => 12 case TriangleStripAdjacency => 13
    case Patches => 14
  }

  /** `1 << mode`, the primitive's bit in a mode mask. */
  function PrimBit(m: PrimType): bv32
  {
    (1 as bv32) << PrimIndex(m)
  }

  /** The hardware draw modes, with their descriptor encodings. */
  datatype MaliDrawMode =
    | MaliPoints | MaliLines | MaliLineLoop | MaliLineStrip | MaliTriangles
    | MaliTriangleStrip | MaliTriangleFan | MaliQuads | MaliQuadStrip | MaliPolygon

  function MaliCode(d: MaliDrawMode): nat
  {
    match d
    case MaliPoints => 1 case MaliLines => 2 case MaliLineStrip => 4 case MaliLineLoop => 6
    case MaliTriangles => 8 case MaliTriangleStrip => 10 case MaliTriangleFan => 12
    case MaliPolygon => 13 case MaliQuads => 14 case MaliQuadStrip => 15
  }

  /** `g2m_draw_mode`: defined for the ten primitive types the hardware draws
      natively; any other mode is unreachable by contract. */
  function G2mDrawMode(m: PrimType): (d: MaliDrawMode)
    requires PrimIndex(m) <= 9
    ensures M2gDrawMode(d) == m && MaliCode(d) != 0
  {
    match m
    case Points => MaliPoints case Lines => MaliLines case LineLoop => MaliLineLoop
    case LineStrip => MaliLineStrip case Triangles => MaliTriangles
    case TriangleStrip => MaliTriangleStrip case TriangleFan => MaliTriangleFan
    case Quads => MaliQuads case QuadStrip => MaliQuadStrip case Polygon => MaliPolygon
  }

  /** The reverse table, hardware mode to Gallium primitive. */
  function M2gDrawMode(d: MaliDrawMode): PrimType
  {
    match d
    case MaliPoints => Points case MaliLines => Lines case MaliLineLoop => LineLoop
    case MaliLineStrip => LineStrip case MaliTriangles => Triangles
    case MaliTriangleStrip => TriangleStrip case MaliTriangleFan => TriangleFan
    case MaliQuads => Quads case MaliQuadStrip => QuadStrip case MaliPolygon => Polygon
  }

  /** The translation is a bijection between the ten native primitive types
      and the hardware modes, whose encodings are pairwise distinct. */
  lemma G2mBijective(m: PrimType, d: MaliDrawMode, e: MaliDrawMode)
    ensures PrimIndex(M2gDrawMode(d)) <= 9 && G2mDrawMode(M2gDrawMode(d)) == d
    ensures PrimIndex(m) <= 9 ==> M2gDrawMode(G2mDrawMode(m)) == m
    ensures MaliCode(d) == MaliCode(e) ==> d == e
  {
  }

  /** The context's supported-mode mask after creation: every mode up to
      QUADS, plus QUAD_STRIP and POLYGON on Midgard. */
  function DrawModesInit(isBifrost: bool): bv32
  {
    var m: bv32 := (1 << (7 + 1)) - 1;
    if !isBifrost then m | (1 << 8) | (1 << 9) else m
  }

  predicate ModeSupported(drawModes: bv32, m: PrimType)
  {
    drawModes & PrimBit(m) != 0
  }

  lemma DrawModesInitMembers(isBifrost: bool, m: PrimType)
    ensures ModeSupported(DrawModesInit(isBifrost), m)
        <==> PrimIndex(m) <= 7 || (!isBifrost && (m == QuadStrip || m == Polygon))
  {
  }

  /** The scissor rectangle. */
  datatype Scissor = Scissor(minx: nat, miny: nat, maxx: nat, maxy: nat)

  /** `panfrost_scissor_culls_everything`. */
  predicate ScissorCulls(scissor: Scissor, rasterizer: Option<RasterizerState>)
  {
    rasterizer.Some? && rasterizer.value.scissor
    && (scissor.minx == scissor.maxx || scissor.miny == scissor.maxy)
  }

  /** The draw parameters the decision reads. `indexSize` is 0 for a
      non-indexed draw, else 1, 2 or 4 bytes. */
  datatype DrawInfo = DrawInfo(
    mode: PrimType,
    indexSize: nat,
    primitiveRestart: bool,
    restartIndex: u32,
    count: u32,
    indexBias: int,
    instanceCount: u32)

  predicate ValidDrawInfo(info: DrawInfo)
  {
    (info.indexSize == 0 || info.indexSize == 1 || info.indexSize == 2 || info.indexSize == 4)
    && -0x8000_0000 < info.indexBias < 0x8000_0000
  }

  /** `(1 << (index_size * 8)) - 1`, the restart index the hardware supports.
      For 4-byte indices the shift is by the full width of `unsigned`, which C
      leaves undefined; `wide` stands for whatever the compiled shift yields. */
  function PrimitiveIndex(indexSize: nat, wide: u32): u32
  {
    if indexSize == 0 then 0
    else if indexSize == 1 then 0xFF
    else if indexSize == 2 then 0xFFFF
    else wide
  }

  predicate RestartUnsupported(info: DrawInfo, wide: u32)
  {
    info.primitiveRestart && info.indexSize != 0 && info.restartIndex != PrimitiveIndex(info.indexSize, wide)
  }

  /** For 1- and 2-byte indices the supported restart index is the largest
      index value, so restart with exactly that value stays on the hardware
      path. */
  lemma RestartIndexIsMaxIndex(info: DrawInfo, wide: u32)
    requires info.indexSize == 1 || info.indexSize == 2
    ensures PrimitiveIndex(info.indexSize, wide) + 1 == Pow256(info.indexSize)
    ensures RestartUnsupported(info, wide)
        <==> info.primitiveRestart && info.restartIndex + 1 != Pow256(info.indexSize)
  {
  }

  function Pow256(n: nat): nat
  {
    if n == 0 then 1 else 256 * Pow256(n - 1)
  }

  /** How a draw call ends. */
  datatype Decision =
    | Culled
    | RestartFallback
    | Dropped
    | PrimconvertFallback
    | Committed(mode: PrimType)

  /** The state the draw path reads and, on commit, writes. */
  datatype DrawContext = DrawContext(
    scissor: Scissor,
    rasterizer: Option<RasterizerState>,
    drawModes: bv32,
    vertexCount: u32,
    instanceCount: u32,
    activePrim: PrimType,
    stats: Stats,
    streamout: Streamout)

  /** The mode decision for a draw that reached it. */
  function ChooseMode(drawModes: bv32, info: DrawInfo, flatshade: bool): (d: Decision)
    ensures d.Committed? ==> ModeSupported(drawModes, d.mode) || d.mode == TriangleFan
    ensures ModeSupported(drawModes, info.mode) <==> d == Committed(info.mode)
    ensures d == Committed(TriangleFan) && info.mode != TriangleFan
        <==> !ModeSupported(drawModes, info.mode) && info.mode == Quads && info.count == 4 && !flatshade
    ensures d == Dropped
        <==> (!ModeSupported(drawModes, info.mode) && !(info.mode == Quads && info.count == 4 && !flatshade)
              && info.count < 4)
    ensures d.Committed? || d == Dropped || d == PrimconvertFallback
    ensures d.Committed? ==> d.mode == info.mode || d.mode == TriangleFan
  {
    if ModeSupported(drawModes, info.mode) then Committed(info.mode)
    else if info.mode == Quads && info.count == 4 && !flatshade then Committed(TriangleFan)
    else if info.count < 4 then Dropped
    else PrimconvertFallback
  }

  /** `panfrost_draw_vbo` up to the descriptor emission. `primsFor` is
      `u_prims_for_vertices` and `soVerticesFor` is
      `u_stream_outputs_for_vertices`; the rasterizer must be bound once the
      draw gets past the scissor and restart checks. */
  function DrawVbo(ctx: DrawContext, info: DrawInfo, wide: u32,
                   primsFor: (PrimType, u32) -> u32, soVerticesFor: (PrimType, u32) -> u32)
    : (r: (Decision, DrawContext))
    requires ValidDrawInfo(info) && ValidStreamout(ctx.streamout)
    requires ScissorCulls(ctx.scissor, ctx.rasterizer) || RestartUnsupported(info, wide) || ctx.rasterizer.Some?
    ensures r.0 == Culled <==> ScissorCulls(ctx.scissor, ctx.rasterizer)
    ensures r.0 == RestartFallback <==> !ScissorCulls(ctx.scissor, ctx.rasterizer) && RestartUnsupported(info, wide)
    ensures !ScissorCulls(ctx.scissor, ctx.rasterizer) && !RestartUnsupported(info, wide) ==>
      r.0 == ChooseMode(ctx.drawModes, info, ctx.rasterizer.value.flatshade)
    ensures !r.0.Committed? ==> r.1 == ctx
    ensures r.0.Committed? ==>
      && r.1.vertexCount == Wrap32(info.count + Abs(info.indexBias))
      && r.1.instanceCount == info.instanceCount
      && r.1.activePrim == info.mode
      && r.1.stats == StatisticsRecord(ctx.stats, ctx.streamout.numTargets, primsFor(info.mode, info.count))
      && r.1.streamout == UpdateStreamoutOffsets(ctx.streamout, soVerticesFor(info.mode, r.1.vertexCount))
      && r.1.(vertexCount := ctx.vertexCount, instanceCount := ctx.instanceCount, activePrim := ctx.activePrim,
              stats := ctx.stats, streamout := ctx.streamout) == ctx
  {
    if ScissorCulls(ctx.scissor, ctx.rasterizer) then (Culled, ctx)
    else if RestartUnsupported(info, wide) then (RestartFallback, ctx)
    else
      var d := ChooseMode(ctx.drawModes, info, ctx.rasterizer.value.flatshade);
      if !d.Committed? then (d, ctx)
      else
        var vertexCount := Wrap32(info.count + Abs(info.indexBias));
        var stats := StatisticsRecord(ctx.stats, ctx.streamout.numTargets, primsFor(info.mode, info.count));
        var streamout := UpdateStreamoutOffsets(ctx.streamout, soVerticesFor(info.mode, vertexCount));
        (d, ctx.(vertexCount := vertexCount, instanceCount := info.instanceCount, activePrim := info.mode,
                 stats := stats, streamout := streamout))
  }

  /** When the supported-mode mask has nothing above POLYGON (the case for
      every mask the context is created with), a committed draw always has a
      mode `g2m_draw_mode` can translate. */
  lemma CommittedModeIsNative(ctx: DrawContext, info: DrawInfo, wide: u32,
                              primsFor: (PrimType, u32) -> u32, soVerticesFor: (PrimType, u32) -> u32)
    requires ValidDrawInfo(info) && ValidStreamout(ctx.streamout)
    requires ScissorCulls(ctx.scissor, ctx.rasterizer) || RestartUnsupported(info, wide) || ctx.rasterizer.Some?
    requires ctx.drawModes & !0x3FF == 0
    ensures var (d, _) := DrawVbo(ctx, info, wide, primsFor, soVerticesFor);
      d.Committed? ==> PrimIndex(d.mode) <= 9
  {
    var (d, _) := DrawVbo(ctx, info, wide, primsFor, soVerticesFor);
    if d.Committed? && d.mode != TriangleFan {
      NativeBits(ctx.drawModes, d.mode);
    }
  }

  lemma NativeBits(drawModes: bv32, m: PrimType)
    requires drawModes & !0x3FF == 0 && ModeSupported(drawModes, m)
    ensures PrimIndex(m) <= 9
  {
  }

  /** Both masks the context is created with contain QUADS, so the
      QUADS-as-triangle-fan rewrite never fires for them: a committed draw
      keeps its own mode. */
  lemma InitMaskNeverRewrites(isBifrost: bool, info: DrawInfo, flatshade: bool)
    ensures var d := ChooseMode(DrawModesInit(isBifrost), info, flatshade);
      d.Committed? ==> d.mode == info.mode
  {
    DrawModesInitMembers(isBifrost, Quads);
  }

  function Abs(x: int): nat
  {
    if x < 0 then -x else x
  }
}
