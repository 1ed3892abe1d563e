/**
 The shader variant cache (`panfrost_variant_matches`,
 `panfrost_bind_shader_state`).

 A shader state object keeps an array of compiled variants of one shader,
 each keyed by a signature of the state it was compiled for: the render-target
 formats a fragment shader reads back, and the point-sprite setup. Binding
 the object selects the first variant whose signature matches the current
 state, or appends a new one (growing the array by doubling from 1, with an
 asserted limit of 1024 slots) and fills its signature; then the selected
 variant is compiled if it has not been already.

 The compiler and the format-class lookup are parameters.
 */
module Variants {
  import opened Base
  import opened PipeState
  import opened StreamOut

  /** The slot count the growth assertion keeps the array below. */
  const VARIANT_SPACE_LIMIT: nat := 1024

  datatype ShaderType = VertexShader | FragmentShader

  /** What the compiler reports about a variant: its binary (not modelled),
      the render targets it reads back, and the varying slots it writes. */
  datatype CompileResult = CompileResult(binary: nat, outputsRead: Mask32, outputsWritten: Mask64)

  /** One variant. A zero-filled slot has every format NONE, no sprites, no
      outputs read, and is not compiled. */
  datatype Variant = Variant(
    compiled: bool,
    rtFormats: seq<PipeFormat>,
    pointSpriteMask: bv32,
    pointSpriteUpperLeft: bool,
    outputsRead: Mask32,
    binary: nat,
    streamOutput: seq<StreamOutput>,
    soMask: Mask64)

  function ZeroVariant(): Variant
  {
    Variant(false, seq(MAX_COLOR_BUFS, _ => FormatNone), 0, false, NoBits(32), 0, [], NoBits(64))
  }

  /** A shader state object: the stream-output records of its source, the
      variant array (`|variants|` is the allocated space), the number of
      variants created, and the active one. */
  datatype ShaderVariants = ShaderVariants(
    streamOutput: seq<StreamOutput>,
    variants: seq<Variant>,
    count: nat,
    active: nat)

  predicate IsPow2(n: nat)
    decreases n
  {
    n == 1 || (n > 1 && n % 2 == 0 && IsPow2(n / 2))
  }

  /** The cache invariant: the space is 0 or a power of two below the limit
      and holds every created variant; each created variant has compiled and
      has eight format entries; every slot past the count is still zero. */
  predicate ValidVariants(vs: ShaderVariants)
  {
    && vs.count <= |vs.variants| < VARIANT_SPACE_LIMIT
    && (|vs.variants| == 0 || IsPow2(|vs.variants|))
    && (forall i | 0 <= i < vs.count :: vs.variants[i].compiled && |vs.variants[i].rtFormats| == MAX_COLOR_BUFS)
    && (forall i | vs.count <= i < |vs.variants| :: vs.variants[i] == ZeroVariant())
  }

  /** What binding reads from the context and the device. `formatIsNative`
      stands for `pan_format_class_load(desc) == PAN_FORMAT_NATIVE`. */
  datatype BindContext = BindContext(
    fb: Framebuffer,
    rasterizer: Option<RasterizerState>,
    isBifrost: bool,
    formatIsNative: PipeFormat -> bool)

  /** The format a variant's signature records for render target `i`: the
      bound colour buffer's, RGBA8 when there is none, and NONE when the
      hardware loads that format natively. */
  function BoundFormat(ctx: BindContext, i: nat): PipeFormat
    requires ValidFramebuffer(ctx.fb) && i < MAX_COLOR_BUFS
  {
    var fmt := if i < ctx.fb.nrCbufs && ctx.fb.cbufs[i].Some? then ctx.fb.cbufs[i].value else R8G8B8A8Unorm;
    if ctx.formatIsNative(fmt) then FormatNone else fmt
  }

  /** Whether the point-sprite part of the signature is compared. */
  predicate SpriteChecked(ctx: BindContext, v: Variant, t: ShaderType)
  {
    t == FragmentShader && ctx.rasterizer.Some?
    && (ctx.rasterizer.value.spriteCoordEnable | v.pointSpriteMask) != 0 && !ctx.isBifrost
  }

  /** `panfrost_variant_matches`: every render target below 8 the variant
      reads back has the recorded format, and, where sprites are compared,
      the sprite mask and origin agree. */
  predicate Matches(ctx: BindContext, v: Variant, t: ShaderType)
    requires ValidFramebuffer(ctx.fb) && |v.rtFormats| == MAX_COLOR_BUFS
  {
    && (forall i | 0 <= i < MAX_COLOR_BUFS :: v.outputsRead[i] ==> v.rtFormats[i] == BoundFormat(ctx, i))
    && (SpriteChecked(ctx, v, t) ==>
          v.pointSpriteMask == ctx.rasterizer.value.spriteCoordEnable
          && v.pointSpriteUpperLeft == ctx.rasterizer.value.spriteCoordUpperLeft)
  }

  /** The first variant at or after `from` that matches, scanning in creation order. */
  function FirstMatch(vs: ShaderVariants, ctx: BindContext, t: ShaderType, from: nat): (r: Option<nat>)
    requires ValidVariants(vs) && ValidFramebuffer(ctx.fb) && from <= vs.count
    ensures r.Some? ==> from <= r.value < vs.count && Matches(ctx, vs.variants[r.value], t)
    ensures forall j | from <= j < vs.count && (r.None? || j < r.value) :: !Matches(ctx, vs.variants[j], t)
    decreases vs.count - from
  {
    if from == vs.count then None
    else if Matches(ctx, vs.variants[from], t) then Some(from)
    else FirstMatch(vs, ctx, t, from + 1)
  }

  /** How many render-target entries the fill loop of a new fragment
      variant's signature covers. */
  datatype FillRule =
    | FillBoundCbufs   // the driver's loop, up to the framebuffer's colour-buffer count
    | FillAllTargets   // every target the match predicate can compare

  /** Fills a new variant's signature from the current state: for a
      fragment shader, the bound format of every target the rule covers, and
      the rasterizer's sprite mask and origin on Midgard; a vertex shader's
      signature is left as it is. */
  function FillSignature(v: Variant, t: ShaderType, ctx: BindContext, rule: FillRule): (r: Variant)
    requires ValidFramebuffer(ctx.fb) && |v.rtFormats| == MAX_COLOR_BUFS
    ensures |r.rtFormats| == MAX_COLOR_BUFS
    ensures r.(rtFormats := v.rtFormats, pointSpriteMask := v.pointSpriteMask,
               pointSpriteUpperLeft := v.pointSpriteUpperLeft) == v
    ensures t != FragmentShader ==> r == v
    ensures t == FragmentShader ==> forall i | 0 <= i < MAX_COLOR_BUFS ::
      r.rtFormats[i] == if i < FillBound(ctx, rule) then BoundFormat(ctx, i) else v.rtFormats[i]
    ensures t == FragmentShader && ctx.rasterizer.Some? && !ctx.isBifrost ==>
      r.pointSpriteMask == ctx.rasterizer.value.spriteCoordEnable
      && r.pointSpriteUpperLeft == ctx.rasterizer.value.spriteCoordUpperLeft
    ensures !(t == FragmentShader && ctx.rasterizer.Some? && !ctx.isBifrost) ==>
      r.pointSpriteMask == v.pointSpriteMask && r.pointSpriteUpperLeft == v.pointSpriteUpperLeft
  {
    if t != FragmentShader then v
    else
      var n := FillBound(ctx, rule);
      var formats := seq(MAX_COLOR_BUFS, i requires 0 <= i < MAX_COLOR_BUFS =>
        if i < n then BoundFormat(ctx, i) else v.rtFormats[i]);
      var v1 := v.(rtFormats := formats);
      if ctx.rasterizer.Some? && !ctx.isBifrost then
        v1.(pointSpriteMask := ctx.rasterizer.value.spriteCoordEnable,
            pointSpriteUpperLeft := ctx.rasterizer.value.spriteCoordUpperLeft)
      else v1
  }

  /** The number of leading render targets the fill loop covers. */
  function FillBound(ctx: BindContext, rule: FillRule): nat
  {
    if rule == FillAllTargets then MAX_COLOR_BUFS else ctx.fb.nrCbufs
  }

  datatype Selection = Selection(vs: ShaderVariants, index: nat)

  /** The selection half of binding: the first match, or a new variant
      appended (growing the space when full) with its signature filled.
      `None` is the growth assertion failing. */
  function SelectVariant(vs: ShaderVariants, t: ShaderType, ctx: BindContext, rule: FillRule): (r: Option<Selection>)
    requires ValidVariants(vs) && ValidFramebuffer(ctx.fb)
    ensures r.None? <==> FirstMatch(vs, ctx, t, 0).None? && vs.count == |vs.variants| && 2 * |vs.variants| >= VARIANT_SPACE_LIMIT
    ensures r.Some? ==> r.value.vs.active == r.value.index && r.value.index < r.value.vs.count
    ensures r.Some? && FirstMatch(vs, ctx, t, 0).Some? ==>
      r.value.index == FirstMatch(vs, ctx, t, 0).value && r.value.vs == vs.(active := r.value.index)
    ensures r.Some? && FirstMatch(vs, ctx, t, 0).None? ==>
      && r.value.index == vs.count && r.value.vs.count == vs.count + 1
      && r.value.vs.count <= |r.value.vs.variants|
      && r.value.vs.variants[..vs.count] == vs.variants[..vs.count]
      && r.value.vs.variants[vs.count] == FillSignature(ZeroVariant(), t, ctx, rule)
      && |r.value.vs.variants| == (if vs.count < |vs.variants| then |vs.variants|
                                   else if |vs.variants| == 0 then 1 else 2 * |vs.variants|)
      && r.value.vs.streamOutput == vs.streamOutput
  {
    match FirstMatch(vs, ctx, t, 0)
    case Some(i) => Some(Selection(vs.(active := i), i))
    case None =>
      var index := vs.count;
      var space := |vs.variants|;
      var newSpace := if index + 1 > space then (if space == 0 then 1 else 2 * space) else space;
      if newSpace >= VARIANT_SPACE_LIMIT then None
      else
        var grown := vs.variants + seq(newSpace - space, _ => ZeroVariant());
        var filled := FillSignature(grown[index], t, ctx, rule);
        Some(Selection(ShaderVariants(vs.streamOutput, grown[index := filled], index + 1, index), index))
  }

  /** Compiles the selected variant unless it already is, then fixes up its
      stream-output records from the outputs the compiler reports written. */
  function EnsureCompiled(vs: ShaderVariants, index: nat, t: ShaderType,
                          compile: (ShaderType, Variant) -> CompileResult): (r: ShaderVariants)
    requires index < |vs.variants|
    ensures r.count == vs.count && r.active == vs.active && r.streamOutput == vs.streamOutput
    ensures |r.variants| == |vs.variants| && r.variants[index].compiled
    ensures forall j | 0 <= j < |vs.variants| && (j != index || vs.variants[index].compiled) ::
      r.variants[j] == vs.variants[j]
    ensures !vs.variants[index].compiled ==>
      var c := compile(t, vs.variants[index]);
      var so := UpdateSoInfo(vs.streamOutput, c.outputsWritten);
      && r.variants[index].binary == c.binary
      && r.variants[index].outputsRead == c.outputsRead
      && r.variants[index].streamOutput == so.outputs
      && r.variants[index].soMask == so.mask
      && r.variants[index].(compiled := false, binary := vs.variants[index].binary,
                            outputsRead := vs.variants[index].outputsRead,
                            streamOutput := vs.variants[index].streamOutput,
                            soMask := vs.variants[index].soMask) == vs.variants[index]
  {
    var v := vs.variants[index];
    if v.compiled then vs
    else
      var c := compile(t, v);
      var so := UpdateSoInfo(vs.streamOutput, c.outputsWritten);
      var v1 := v.(compiled := true, binary := c.binary, outputsRead := c.outputsRead,
                   streamOutput := so.outputs, soMask := so.mask);
      vs.(variants := vs.variants[index := v1])
  }

  /** How binding ends: no shader, a selected variant, or the growth
      assertion failing. */
  datatype BindOutcome = Unbound | Bound(vs: ShaderVariants, selected: nat) | SpaceExhausted

  /** `panfrost_bind_shader_state` on the variant cache. */
  function BindShaderState(cso: Option<ShaderVariants>, t: ShaderType, ctx: BindContext, rule: FillRule,
                           compile: (ShaderType, Variant) -> CompileResult): (r: BindOutcome)
    requires ValidFramebuffer(ctx.fb) && (cso.Some? ==> ValidVariants(cso.value))
    ensures r.Unbound? <==> cso.None?
    ensures r.Bound? ==> ValidVariants(r.vs) && r.selected < r.vs.count && r.vs.active == r.selected
    ensures r.Bound? ==> r.vs.count == cso.value.count || r.vs.count == cso.value.count + 1
  {
    match cso
    case None => Unbound
    case Some(vs) =>
      match SelectVariant(vs, t, ctx, rule)
      case None => SpaceExhausted
      case Some(sel) =>
        SelectionValid(vs, t, ctx, rule);
        var r := EnsureCompiled(sel.vs, sel.index, t, compile);
        assert forall i | 0 <= i < r.count :: r.variants[i].rtFormats == sel.vs.variants[i].rtFormats;
        Bound(r, sel.index)
  }

  /** Selection keeps the cache invariant except that the new variant is not
      compiled yet, and the selected variant matches the current state (the
      driver asserts this). */
  lemma SelectionValid(vs: ShaderVariants, t: ShaderType, ctx: BindContext, rule: FillRule)
    requires ValidVariants(vs) && ValidFramebuffer(ctx.fb)
    requires SelectVariant(vs, t, ctx, rule).Some?
    ensures var sel := SelectVariant(vs, t, ctx, rule).value;
      && sel.vs.count <= |sel.vs.variants| < VARIANT_SPACE_LIMIT
      && IsPow2(|sel.vs.variants|)
      && (forall i | 0 <= i < sel.vs.count && i != sel.index :: sel.vs.variants[i] == vs.variants[i])
      && (forall i | 0 <= i < sel.vs.count :: |sel.vs.variants[i].rtFormats| == MAX_COLOR_BUFS)
      && (forall i | 0 <= i < sel.vs.count && i != sel.index :: sel.vs.variants[i].compiled)
      && (forall i | sel.vs.count <= i < |sel.vs.variants| :: sel.vs.variants[i] == ZeroVariant())
      && Matches(ctx, sel.vs.variants[sel.index], t)
  {
  }

  /** A hit selects the first matching variant and creates nothing; a miss
      selects a new variant at the old count. Variants created earlier are
      never modified: each was compiled when it was created, so the compiler
      runs at most once per variant. */
  lemma BindSelectsFirstMatch(vs: ShaderVariants, t: ShaderType, ctx: BindContext, rule: FillRule,
                              compile: (ShaderType, Variant) -> CompileResult)
    requires ValidFramebuffer(ctx.fb) && ValidVariants(vs)
    ensures var r := BindShaderState(Some(vs), t, ctx, rule, compile);
      && (FirstMatch(vs, ctx, t, 0).Some? ==> r == Bound(vs.(active := FirstMatch(vs, ctx, t, 0).value), FirstMatch(vs, ctx, t, 0).value))
      && (FirstMatch(vs, ctx, t, 0).None? && r.Bound? ==> r.selected == vs.count && r.vs.count == vs.count + 1)
      && (r.Bound? ==> forall i | 0 <= i < vs.count :: r.vs.variants[i] == vs.variants[i])
  {
  }

  /** With every render target in the signature, binding again in the same
      state changes nothing: it selects the same variant, creates none and
      compiles none. For a fragment shader this holds whatever the compiler
      reports. A vertex shader's signature records no formats, so for it the
      compiler must report no render-target reads. */
  lemma RebindIsStable(vs: ShaderVariants, t: ShaderType, ctx: BindContext,
                       compile: (ShaderType, Variant) -> CompileResult)
    requires ValidFramebuffer(ctx.fb) && ValidVariants(vs)
    requires t == VertexShader ==> forall v: Variant, i | 0 <= i < MAX_COLOR_BUFS :: !compile(VertexShader, v).outputsRead[i]
    requires BindShaderState(Some(vs), t, ctx, FillAllTargets, compile).Bound?
    ensures var r := BindShaderState(Some(vs), t, ctx, FillAllTargets, compile);
      BindShaderState(Some(r.vs), t, ctx, FillAllTargets, compile) == r
  {
    var r := BindShaderState(Some(vs), t, ctx, FillAllTargets, compile);
    var s := r.selected;
    BindSelectsFirstMatch(vs, t, ctx, FillAllTargets, compile);
    SelectionValid(vs, t, ctx, FillAllTargets);
    var sel := SelectVariant(vs, t, ctx, FillAllTargets).value;
    assert Matches(ctx, r.vs.variants[s], t) by {
      if FirstMatch(vs, ctx, t, 0).None? {
        var v := r.vs.variants[s];
        var filled := sel.vs.variants[s];
        assert v.rtFormats == filled.rtFormats && v.pointSpriteMask == filled.pointSpriteMask
            && v.pointSpriteUpperLeft == filled.pointSpriteUpperLeft;
        if t == VertexShader {
          assert forall i | 0 <= i < MAX_COLOR_BUFS :: !v.outputsRead[i];
        } else {
          assert forall i | 0 <= i < MAX_COLOR_BUFS :: v.rtFormats[i] == BoundFormat(ctx, i);
        }
      }
    }
    FirstMatchAgrees(vs, r.vs, ctx, t, s);
  }

  /** Two caches that agree on their first `s` variants, none of which
      matches, and whose variant `s` matches, have first match `s`. */
  lemma FirstMatchAgrees(a: ShaderVariants, b: ShaderVariants, ctx: BindContext, t: ShaderType, s: nat)
    requires ValidVariants(a) && ValidVariants(b) && ValidFramebuffer(ctx.fb)
    requires s < b.count && s <= a.count
    requires forall j | 0 <= j < s :: b.variants[j] == a.variants[j] && !Matches(ctx, a.variants[j], t)
    requires Matches(ctx, b.variants[s], t)
    ensures FirstMatch(b, ctx, t, 0) == Some(s)
  {
  }

  /** The driver's signature fill stops at the framebuffer's colour-buffer
      count. A fragment shader that reads back render target 0 while no colour
      buffer is bound (RGBA8 not natively loadable) gets a variant that
      records NONE for that target, which the match predicate then compares
      against RGBA8: binding the same shader in the same state again misses
      and creates a second variant, and so on for every rebind. */
  lemma AsWrittenRebindCreatesVariant()
    ensures var ctx := BindContext(Framebuffer(0, seq(MAX_COLOR_BUFS, _ => None)), None, false, _ => false);
      var compile := (t: ShaderType, v: Variant) => CompileResult(0, NoBits(32)[0 := true], NoBits(64));
      var vs := ShaderVariants([], [], 0, 0);
      var r1 := BindShaderState(Some(vs), FragmentShader, ctx, FillBoundCbufs, compile);
      && r1 == Bound(r1.vs, 0) && r1.vs.count == 1
      && var r2 := BindShaderState(Some(r1.vs), FragmentShader, ctx, FillBoundCbufs, compile);
         r2 == Bound(r2.vs, 1) && r2.vs.count == 2
  {
    var ctx := BindContext(Framebuffer(0, seq(MAX_COLOR_BUFS, _ => None)), None, false, _ => false);
    var compile := (t: ShaderType, v: Variant) => CompileResult(0, NoBits(32)[0 := true], NoBits(64));
    var vs := ShaderVariants([], [], 0, 0);
    var r1 := BindShaderState(Some(vs), FragmentShader, ctx, FillBoundCbufs, compile);
    BindSelectsFirstMatch(vs, FragmentShader, ctx, FillBoundCbufs, compile);
    var v0 := r1.vs.variants[0];
    assert v0.outputsRead[0] && v0.rtFormats[0] == FormatNone;
    assert BoundFormat(ctx, 0) == R8G8B8A8Unorm;
    assert !Matches(ctx, v0, FragmentShader);
    assert FirstMatch(r1.vs, ctx, FragmentShader, 1) == None;
    BindSelectsFirstMatch(r1.vs, FragmentShader, ctx, FillBoundCbufs, compile);
  }

  /** The limit lets a cache hold at most 512 variants; a miss with 512
      variants is the one that fails the growth assertion. */
  lemma AtMost512Variants(vs: ShaderVariants)
    requires ValidVariants(vs)
    ensures vs.count <= |vs.variants| <= 512
  {
    if |vs.variants| > 0 {
      Pow2Below(|vs.variants|, 512);
    }
  }

  lemma {:induction false} Pow2Below(n: nat, k: nat)
    requires IsPow2(n) && IsPow2(k) && n < 2 * k
    ensures n <= k
    decreases n
  {
    if n > 1 && k > 1 {
      Pow2Below(n / 2, k / 2);
    }
  }
}
