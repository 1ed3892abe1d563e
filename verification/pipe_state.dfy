/**
 The pieces of bound Gallium state that several driver entry points read:
 the rasterizer, the framebuffer's colour buffers, and surface formats.
 */
module PipeState {
  import opened Base

  /** Colour buffers a framebuffer can bind (PIPE_MAX_COLOR_BUFS). */
  const MAX_COLOR_BUFS: nat := 8

  /** A surface format: the two the driver names, or any other. */
  datatype PipeFormat = FormatNone | R8G8B8A8Unorm | OtherFormat(code: nat)

  /** The rasterizer fields the driver consults. */
  datatype RasterizerState = RasterizerState(
    scissor: bool,
    flatshade: bool,
    spriteCoordEnable: bv32,
    spriteCoordUpperLeft: bool)

  /** `cbufs[i]` is the format of colour buffer i, or `None` for a NULL surface. */
  datatype Framebuffer = Framebuffer(nrCbufs: nat, cbufs: seq<Option<PipeFormat>>)

  predicate ValidFramebuffer(fb: Framebuffer)
  {
    fb.nrCbufs <= MAX_COLOR_BUFS && |fb.cbufs| == MAX_COLOR_BUFS
  }
}
