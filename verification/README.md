# Panfrost draw-path core, modelled in Dafny

This project models the decision logic of the Panfrost Gallium driver's context
(`src/gallium/drivers/panfrost/pan_context.c`) and the NIR pass
`nir_lower_discard_to_demote`. Each piece is written as pure functions over
immutable datatypes; the one exception is the sampler-view update, a method
with loops. The properties the driver relies on are proved about them. The pieces are:

- **the shader variant cache**: matching a variant's signature against bound
  state, first-match selection, growth by doubling, signature fill, and
  compile-once;
- **the stream-output remap**: condensed slot to real varying slot;
- **the per-draw vertex attribute offset fix-up** and its address equation;
- **the Midgard tiler descriptor** for drawing and for empty draws;
- **the front half of `panfrost_draw_vbo`**: scissor culling, primitive-restart
  fallback, the supported-mode test with its QUADS rewrite, drop and
  primconvert fallbacks, and the state a committed draw updates;
- **bookkeeping**:
  - the uniform-buffer count and the constant-buffer masks;
  - the sampler-view count;
  - stencil-op translation and the back write-mask default;
  - the primitive statistics and the queries that read them;
  - the stream-output offsets.

Modelling conventions:

- **Masks.** A fixed-width mask is a sequence of booleans, where bit `i` is
  element `i`. The exceptions are the draw-mode mask, the hierarchy mask and
  the sprite mask, which stay bit-vectors. The driver only tests them
  against constants, ORs them together, or compares them for equality.
- **Integers.** C `unsigned` and `uint64_t` results are wrapped explicitly,
  modulo 2^32 and 2^64.
- **Collaborators** outside the model are parameters:
  - the shader compiler;
  - `pan_format_class_load`;
  - the tiler heuristics and the polygon-list allocator;
  - `u_prims_for_vertices` and `u_stream_outputs_for_vertices`;
  - the compare-function translation.
- **Constants** come from headers outside this model:
  - the tiler flag values (`MALI_TILER_DISABLED` = 0x1000,
    `MALI_TILER_USER` = 0xFFF, `MALI_TILER_MINIMUM_HEADER_SIZE` = 0x200);
  - the hardware draw-mode and stencil-op encodings;
  - the `enum pipe_prim_type` order;
  - the Gallium array limits (8 colour buffers, 32 constant buffers, 4
    stream-output buffers).

## Model

| member | source | states |
|---|---|---|
| NirDemote.LowerInstrTable | src/compiler/nir/nir_lower_discard_to_demote.c:46-63 | An instruction changes iff it is `discard`, `discard_if` or `load_helper_invocation`. The three map to `demote`, `demote_if` and `is_helper_invocation`. Operands and instruction kind are kept, and no output is lowerable again. |
| NirDemote.LowerInstrs | src/compiler/nir/nir_lower_discard_to_demote.c:43-67 | The walk keeps count and order and rewrites each instruction in place. `uses_demote` ends set iff it was set or some instruction is a discard. Progress is set iff some instruction is lowerable. |
| NirDemote.LowerDiscardToDemote | src/compiler/nir/nir_lower_discard_to_demote.c:35-71 | A non-fragment shader comes back unchanged with `false`. A fragment shader is rewritten instruction by instruction. `uses_demote` is set exactly when a discard was demoted and is never cleared. |
| NirDemote.ProgressIffChanged | src/compiler/nir/nir_lower_discard_to_demote.c:38-70 | The result is true iff the shader is a fragment shader containing a lowerable instruction, and iff the instruction sequence changed. |
| NirDemote.NothingLeftToLower | src/compiler/nir/nir_lower_discard_to_demote.c:50-63 | After the pass no `discard`, `discard_if` or `load_helper_invocation` remains. |
| NirDemote.SecondRunIsNoop | src/compiler/nir/nir_lower_discard_to_demote.c:36-71 | Running the pass on its own output changes nothing and reports no progress. |
| StreamOut.ScanFrom | src/gallium/drivers/panfrost/pan_context.c:708-709 | Each position the bit scan yields is set, and the k-th one has exactly k set bits below it. The number of positions is the population count. |
| StreamOut.ScanCompleteSorted | src/gallium/drivers/panfrost/pan_context.c:708-709 | The scan yields every set bit, in strictly increasing order. |
| StreamOut.ReverseMap | src/gallium/drivers/panfrost/pan_context.c:705-709 | Entry k (k below the population count) is the set bit of rank k of `outputs_written`. The entries past the count stay 0. |
| StreamOut.CaptureMask | src/gallium/drivers/panfrost/pan_context.c:711-718 | The accumulated mask has bit p set iff some record's register index is p. |
| StreamOut.UpdateSoInfo | src/gallium/drivers/panfrost/pan_context.c:701-721 | Each record's condensed slot c becomes the written slot of rank c, or 0 when c is at least the written count. No other field changes. The returned mask is exactly the set of rewritten register indices. |
| StreamOut.RemapIsUnique | src/gallium/drivers/panfrost/pan_context.c:711-716 | A record whose condensed slot equals the rank of a written slot p is mapped to p and nowhere else. |
| StreamOut.CapturingAllWrittenGivesWrittenMask | src/gallium/drivers/panfrost/pan_context.c:701-721 | If the records capture condensed slots 0..n-1 for the n written outputs, the returned mask equals `outputs_written`. |
| AttribFixup.UpdAttrOffs | src/gallium/drivers/panfrost/pan_context.c:167-219 | Without a vertex state nothing happens. Otherwise the `pipe` copy is unchanged and only `hw[i].src_offset` is written, for i below the element count. Records past the count are untouched. |
| AttribFixup.AddressPreserved | src/gallium/drivers/panfrost/pan_context.c:176-217 | For a buffer whose storage is 64-byte aligned, the fix-up offset with the aligned base fetches from `base + stride*vtx + src_offset` modulo 2^32. For a shifted instanced element it fetches that address at `vtx - start`. |
| AttribFixup.CorrectionIff | src/gallium/drivers/panfrost/pan_context.c:209-215 | The offset differs from the folded `src_offset + (buffer_offset & 63)` iff the element is instanced, more than one instance is drawn, `start != 0`, and `stride*start` is not 0 modulo 2^32. |
| AttribFixup.LastDrawWins | src/gallium/drivers/panfrost/pan_context.c:201-217 | A second fix-up gives the same result as if only the second had run, so offsets never compound across draws. |
| AttribFixup.Idempotent | src/gallium/drivers/panfrost/pan_context.c:201-217 | Running the fix-up twice for the same draw equals running it once. |
| Tiler.EmitMidgTiler | src/gallium/drivers/panfrost/pan_context.c:60-123 | With vertices: the heuristic mask and full size, the allocated polygon list, the body `header_size` bytes in, and the heap `[gpu, gpu+size)`. Without vertices: an empty heap and the dummy buffer as polygon list, with the body at the minimum header size. With hierarchy the mask gains DISABLED. Without hierarchy the mask is USER, the size is the minimum header size plus 4, and 0xa0000000 is written at the minimum header size. |
| Tiler.HeapEmptyIffNoVertices | src/gallium/drivers/panfrost/pan_context.c:90-101 | For a non-empty heap that does not wrap, the heap bounds are equal iff the vertex count is 0. |
| Tiler.BodyFillsAllocation | src/gallium/drivers/panfrost/pan_context.c:80-120 | With vertices and no wrap, the body starts inside the allocation and ends where the allocation of header plus full size ends. |
| Tiler.DisabledKeepsLevels | src/gallium/drivers/panfrost/pan_context.c:106-108 | Disabling a hierarchical tiler sets the DISABLED bit and keeps every other bit of the chosen mask. |
| Tiler.DummyWordIsFirstBodyWord | src/gallium/drivers/panfrost/pan_context.c:109-120 | Without hierarchy, the hand-written word sits at the first word of the polygon-list body, and that word lies inside the reported list size. |
| Counters.StatisticsRecord | src/gallium/drivers/panfrost/pan_context.c:309-323 | Without active queries nothing changes. With active queries the generated counter grows by the primitive count modulo 2^64. The captured counter grows only when stream-output targets are bound. |
| Counters.RecordAllSums | src/gallium/drivers/panfrost/pan_context.c:309-323 | Over a run of draws with queries active, the counters advance by the sum of the draws' primitives, or of the captured draws' for the TF counter, modulo 2^64. With queries inactive they stay put. |
| Counters.BeginQuery | src/gallium/drivers/panfrost/pan_context.c:1319-1324 | A primitives-generated query snapshots the generated counter and a primitives-emitted query the captured one. Other types keep their start. |
| Counters.EndQuery | src/gallium/drivers/panfrost/pan_context.c:1346-1351 | The same snapshot is taken for `end`. |
| Counters.QueryResult | src/gallium/drivers/panfrost/pan_context.c:1386-1390 | Only the two primitive queries give a result, and it is the value that added to `start` modulo 2^64 gives `end`. |
| Counters.QueryCountsDrawsBetween | src/gallium/drivers/panfrost/pan_context.c:1319-1390 | A primitive query around a run of draws reports the primitives those draws generated, or captured, modulo 2^64. |
| Counters.UpdateStreamoutOffsets | src/gallium/drivers/panfrost/pan_context.c:326-335 | Every bound target's offset advances by the same count modulo 2^32. Unbound slots and the target count are unchanged. |
| Counters.StreamoutOffsetsAdd | src/gallium/drivers/panfrost/pan_context.c:326-335 | Two updates equal one update by the wrapped sum of their counts. |
| Counters.SetStreamOutputTargets | src/gallium/drivers/panfrost/pan_context.c:1432-1453 | The target count becomes n. Each of the first n offsets takes the given value unless it is `(unsigned)-1`, and the other offsets are kept. |
| Counters.AppendResumes | src/gallium/drivers/panfrost/pan_context.c:1441-1444 | Rebinding the same targets with append offsets after a draw leaves the offsets where the draw left them. |
| Draw.G2mDrawMode | src/gallium/drivers/panfrost/pan_context.c:271-288 | Defined on the ten primitive types up to POLYGON. Each maps to the hardware mode of the same primitive (the reverse table gives it back), whose encoding is non-zero. |
| Draw.G2mBijective | src/gallium/drivers/panfrost/pan_context.c:271-288 | The translation and its reverse table are inverse bijections, and the hardware encodings are pairwise distinct. |
| Draw.DrawModesInitMembers | src/gallium/drivers/panfrost/pan_context.c:1537-1542 | The initial mask contains a primitive iff it is at most QUADS, or it is QUAD_STRIP or POLYGON on a non-Bifrost device. |
| Draw.RestartIndexIsMaxIndex | src/gallium/drivers/panfrost/pan_context.c:354-360 | For 1- and 2-byte indices the supported restart index is the largest index value, and restart takes the fallback iff another index is requested. |
| Draw.ChooseMode | src/gallium/drivers/panfrost/pan_context.c:366-379 | A supported mode is committed as is. Otherwise QUADS with 4 vertices and no flat shading is committed as TRIANGLE_FAN, a count below 4 is dropped, and the rest goes to primconvert. A commit is only ever of the draw's own mode or of TRIANGLE_FAN. |
| Draw.DrawVbo | src/gallium/drivers/panfrost/pan_context.c:338-446 | The draw is culled iff the scissor is enabled with a zero-width or zero-height rectangle. It takes the restart fallback iff not culled and restart is unsupported. Only a committed draw touches state. A draw that passes both checks ends as the mode decision decides. A commit sets the vertex count to `count + abs(index_bias)` modulo 2^32, the instance count and the original mode as the active primitive, records statistics and advances the stream-output offsets. |
| Draw.CommittedModeIsNative | src/gallium/drivers/panfrost/pan_context.c:366-405 | With a mode mask that has nothing above POLYGON, every committed mode is one `g2m_draw_mode` translates. |
| Draw.InitMaskNeverRewrites | src/gallium/drivers/panfrost/pan_context.c:366-368 | Both initial masks contain QUADS, so a committed draw keeps its own mode. |
| ConstantBuffers.SetConstantBuffer | src/gallium/drivers/panfrost/pan_context.c:867-887 | Binding sets bit `index` in both masks and unbinding clears it in both. The slot holds the new buffer, and every other slot and bit is unchanged. |
| ConstantBuffers.SetKeepsEnabledMatching | src/gallium/drivers/panfrost/pan_context.c:875-886 | If the enabled mask names exactly the bound slots before the call, it still does after. |
| ConstantBuffers.Clz | src/gallium/drivers/panfrost/pan_context.c:230 | The count of leading zero bits: the top n bits are clear, and the next bit down is set when n is below the width. |
| ConstantBuffers.UboCount | src/gallium/drivers/panfrost/pan_context.c:227-231 | The count is between 1 and 32, the slot just below it is enabled (or the count is 1), and no slot at or above it is enabled. |
| ConstantBuffers.UboCountIsLeastCover | src/gallium/drivers/panfrost/pan_context.c:220-231 | A table of n ≥ 1 slots covers every enabled slot iff n is at least the count. |
| ConstantBuffers.BoundSlotIsCounted | src/gallium/drivers/panfrost/pan_context.c:227-231 | After binding slot `index`, the uniform count reaches past it. |
| SamplerViews.SetSamplerViews | src/gallium/drivers/panfrost/pan_context.c:1045-1069 | The first views are replaced by the new ones, and old views between the new count and the old count are unbound. The new count is one past the last non-NULL view, or 0. An empty tail beyond the old count stays empty beyond the new one. |
| Stencil.TranslationPreservesMeaning | src/gallium/drivers/panfrost/pan_context.c:1116-1129 | Each translated hardware op does to every 8-bit stencil value what the Gallium op does (INCR and DECR saturate, the WRAP forms wrap). The translation is one-to-one with codes below 8. |
| Stencil.CreateDepthStencilState | src/gallium/drivers/panfrost/pan_context.c:1144-1167 | The front write mask is the front face's. The back write mask is the back face's when that face is enabled, otherwise the front's. Each face's value mask is copied and its compare function translated. |
| Stencil.FacesBehaveAsRequested | src/gallium/drivers/panfrost/pan_context.c:1132-1158 | All six packed operations (stencil-fail, depth-fail and depth-pass of each face) act on every stencil value as the Gallium face's operations. With the back face disabled both faces write through the same mask. |
| Variants.FirstMatch | src/gallium/drivers/panfrost/pan_context.c:737-745 | Returns the first matching variant in creation order, with no earlier one matching, or none if no variant matches. |
| Variants.FillSignature | src/gallium/drivers/panfrost/pan_context.c:773-797 | A vertex variant is unchanged. A fragment variant records the bound format of each target below the fill bound (`nr_cbufs` as written, 8 when corrected) and keeps the rest. On Midgard with a rasterizer it records the sprite mask and origin; otherwise they are kept. Nothing else changes. |
| Variants.SelectVariant | src/gallium/drivers/panfrost/pan_context.c:737-801 | A hit selects the first match and leaves the array alone. A miss appends the filled variant at the old count and grows a full array from 0 to 1 or by doubling. Selection fails iff a miss would grow the array to 1024 slots or more. The selected variant becomes active. |
| Variants.EnsureCompiled | src/gallium/drivers/panfrost/pan_context.c:808-827 | The selected variant ends compiled. A variant already compiled, and every other variant, is left unchanged. A fresh compile stores the compiler's binary and `outputs_read`, and the stream-output records and mask that `update_so_info` derives from the compiler's `outputs_written`. Nothing else changes. |
| Variants.BindShaderState | src/gallium/drivers/panfrost/pan_context.c:724-828 | A NULL state unbinds. Otherwise the cache invariant holds afterwards (space 0 or a power of two below 1024, all created variants compiled, the tail zero), the selected variant is active, and the count grows by at most one. |
| Variants.SelectionValid | src/gallium/drivers/panfrost/pan_context.c:801-804 | The selected variant matches the current state, as the driver asserts, and the array keeps its shape. |
| Variants.BindSelectsFirstMatch | src/gallium/drivers/panfrost/pan_context.c:737-827 | A hit changes only the active index. A miss selects the old count and adds one. Variants created earlier are never modified, so each is compiled once. |
| Variants.RebindIsStable | src/gallium/drivers/panfrost/pan_context.c:724-828 | With every render target in the signature, binding a fragment shader again in the same state returns the same outcome unchanged: no variant is created or compiled. The same holds for a vertex shader when the compiler reports no render-target reads for it. |
| Variants.AsWrittenRebindCreatesVariant | src/gallium/drivers/panfrost/pan_context.c:775-788 | With the fill loop bounded by the colour-buffer count, a second bind in the same state misses and creates a second variant. |
| Variants.AtMost512Variants | src/gallium/drivers/panfrost/pan_context.c:751-760 | The asserted limit keeps the space, and so the variant count, at or below 512. |
| Draw.DrawModesInit | src/gallium/drivers/panfrost/pan_context.c:1537-1542 | The initial mask is the modes up to QUADS, plus QUAD_STRIP and POLYGON when not on Bifrost. Its membership is stated by `DrawModesInitMembers`. |
| Draw.ScissorCulls | src/gallium/drivers/panfrost/pan_context.c:292-303 | A draw is culled only with a bound rasterizer that enables the scissor and a rectangle of zero width or height. `DrawVbo` ties this to the Culled outcome. |
| Stencil.PipeToStencilOp | src/gallium/drivers/panfrost/pan_context.c:1115-1129 | The op table: INCR and DECR map to the saturating hardware ops, the WRAP forms to the wrapping ones. `TranslationPreservesMeaning` proves the meaning is kept. |
| Stencil.PipeToStencil | src/gallium/drivers/panfrost/pan_context.c:1131-1141 | A face's value mask is copied, its compare function translated, and its three ops translated. `FacesBehaveAsRequested` states their effect. |
| Variants.Matches | src/gallium/drivers/panfrost/pan_context.c:631-682 | A variant matches iff every target below 8 it reads has the recorded bound format and, where sprites are compared (fragment, Midgard, either mask non-zero), the sprite mask and origin agree. `SelectionValid` proves the selected variant matches. |
| AttribFixup.FixedSrcOffset | src/gallium/drivers/panfrost/pan_context.c:206-217 | The fixed offset of one element: `src_offset + (buffer_offset & 63)`, less `stride*start` for an instanced element when more than one instance is drawn and `start != 0`, modulo 2^32. `CorrectionIff` and `AddressPreserved` state its meaning. |

## Left out

- Kernel submission, fences, flushing and `panfrost_bo_wait` are I/O and blocking. Occlusion queries read their result from GPU memory, so `QueryResult` gives nothing for them.
- Buffer-object allocation and reference counting, sampler-view and texture descriptor construction, and the reference counting of sampler views and stream-output targets are foreign code. Only the slot contents and counts are modelled.
- Descriptor emission after a committed draw (lines 384-446, apart from the state updates at 390-392, 407 and 445) is modelled only as the `Committed` outcome.
- The shader compiler and the compiler-side fields of a variant (`binary` stands for them) are out of scope. The format lookup, the tiler heuristics, `u_prims_for_vertices` and `u_stream_outputs_for_vertices` are parameters, so nothing is proved about their internals.
- The primconvert, restart and u_vbuf fallbacks are outcomes of the draw decision; what they then draw is not modelled.
- Draw.DrawVbo: for 4-byte indices the restart index is computed with a shift by 32 bits, which C leaves undefined. The model takes that value as the parameter `wide`, and the restart property is stated only for 1- and 2-byte indices.
- Draw.DrawVbo: the assert that a rasterizer is bound once a draw reaches the mode decision (line 364) is a precondition.
- Draw.DrawVbo: `abs(index_bias)` is modelled for biases above `INT_MIN` only, where C's `abs` is defined.
- AttribFixup.AddressPreserved: the address equation is stated modulo 2^32, the width of `src_offset`. GPU addresses are 64-bit and the hardware's 64-bit addition is not modelled.
- The `panfrost_set_stream_output_targets` release loop (lines 1449-1450) is not modelled; only the offsets and the target count are.
- The asserts that alpha testing and the depth-bounds test are off (lines 1160-1164) are preconditions of `CreateDepthStencilState`.
- Variants.RebindIsStable: for a vertex shader the lemma assumes the compiler reports no render-target reads. The match test compares `outputs_read` for every stage, but only a fragment variant's signature is filled, so a vertex shader whose compile result did report such a read would miss on every rebind. The framebuffer rebind only rebinds the fragment shader, for which the lemma needs no assumption.
- `panfrost_set_framebuffer_state`'s rebind of the fragment shader is not modelled separately. `RebindIsStable` and `AsWrittenRebindCreatesVariant` describe what that rebind does to the cache.

## Findings

| source | as written | input that shows it | evidently intended | confidence | as-written member | corrected member |
|---|---|---|---|---|---|---|
| src/gallium/drivers/panfrost/pan_context.c:775 | A new fragment variant's render-target formats are filled only for targets below `fb->nr_cbufs`; the entries above keep the zero format NONE. The match predicate (lines 646-660) compares every read target below 8 against RGBA8, or NONE when RGBA8 loads natively. | A fragment shader that reads back render target 0, with no colour buffer bound and RGBA8 not loaded natively. After the first bind compiles the variant, `outputs_read` has bit 0 set and the recorded format is NONE against RGBA8, so every rebind in the same state misses and appends another variant, until the 1024-slot assertion fails. | Fill all eight targets, as the redundant `nr_cbufs > i` test inside the loop suggests, so that a compiled variant matches the state it was created for. | low, not executed | Variants.AsWrittenRebindCreatesVariant | Variants.RebindIsStable |
