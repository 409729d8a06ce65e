# sokol_gp draw-command queue, in Dafny

sokol_gp is a 2D painter built on sokol_gfx. Each drawing call writes vertices into a
preallocated vertex arena. It stores the shader uniform of the current custom pipeline in a
uniform arena and appends a DRAW command to a command arena. `sgp_viewport` and
`sgp_scissor` append VIEWPORT and SCISSOR commands. Before appending a draw, the batch
optimizer (`_sgp_merge_batch_command`) looks back through at most eight draws for an earlier
one with the same pipeline, textures and uniform. If reordering is safe for the regions the
draws cover, it folds the new draw into that one: forwards, by growing it in place, or
backwards, by moving it to the end. `sgp_flush` replays the commands of the current segment
as backend calls and skips every pipeline, binding and uniform call that would change
nothing. `sgp_begin`/`sgp_end` and `sgp_push_transform`/`sgp_pop_transform` keep 64-deep
stacks of the draw state and the transform.

The project models this core of `sokol/c/sokol_gp.h`:

- `types.dfy`: the configuration constants, errors, commands, draw arguments, uniforms,
  texture sets and the draw state.
- `tables.dfy`: the blend table, the error messages and the pipeline-cache index.
- `regions.dfy`: bounding regions, the strict overlap test, the union and the emitters' fold.
- `arenas.dfy`: the arenas as one value (`Queue`), and `memmove` on the vertex array.
- `optimizer.dfy`: the candidate scan, the overlap test, the two merges and `_sgp_queue_draw`,
  as functions over `Queue` with the loops as methods over arrays.
- `dispatch.dfy`: `sgp_flush` as the sequence of backend events it produces.
- `drawstate.dfy`: `sgp_set_uniform`, `sgp_set_image`, `sgp_viewport`, `sgp_scissor` and the
  state `sgp_begin` starts a segment with.
- `emit.dfy`: the vertices and regions of `sgp_clear`, `sgp_draw`, `_sgp_draw_solid_pip` and
  its wrappers, `sgp_draw_filled_rects` and `sgp_draw_textured_rects`, with their fill loops.
- `stacks.dfy`: the state and transform stacks as values.
- `context.dfy`: the context itself, as the class `Gp.Context`. It holds the arenas, the
  pipeline cache and both stacks as arrays, with the cursors, the current state and the last
  error as fields. Every public call is a method, proved to leave the context as the pure
  definition of its module says.

The model reproduces the source's quirks rather than correcting them:

- A refused backward merge leaks the command slot it took. A draw an earlier frame left in
  that slot then joins the segment and the next flush replays it
  (`Gp.StaleSlotJoinsSegment`).
- A draw refused for want of a command slot keeps the uniform it just stored: only the
  vertex cursor is rolled back (`Optimizer.AppendDraw`).
- With no draw in between, a forward merge grows the candidate over the vertices right after
  it, even when vertices claimed and never queued lie between it and the new ones
  (`GrownOverGap` in `Optimizer.QueueDrawOutcome`).
- A forward merge into a candidate whose vertices end past the cursor is refused only because
  the unsigned count of vertices to move wraps around (`Optimizer.MoveCountWraps`).
- A zero-sized image leaks vertices in `sgp_draw_textured_rects`.
- A shrinking `sgp_set_uniform` zeroes bytes at the wrong offset.
- Flush compares image ids and never sampler ids.
- `sgp_begin` keeps the custom pipeline.
- A viewport change places no scissor command. The stored scissor, relative to the viewport,
  shifts by the delta, so the framebuffer rectangle it stands for shifts by twice the delta.

Each of these is stated as a lemma.

## Model

| member | source | states |
|---|---|---|
| Tables.BlendStateOf | sokol/c/sokol_gp.h:1516-1595 | blending is enabled exactly for the modes other than NONE; both operations add; NONE writes the source unchanged (ONE, ZERO) |
| Tables.BlendStateMeetsDocumentation | sokol/c/sokol_gp.h:439-460 | for every mode, source and destination color, the blender configured by the table computes the equation documented beside `sgp_blend_mode` |
| Tables.ErrorCode | sokol/c/sokol_gp.h:419-436 | every error has a code below 16 |
| Tables.ErrorOfCode | sokol/c/sokol_gp.h:419-436 | an integer denotes an error exactly when it lies in [0, 16), and that error's code is the integer |
| Tables.ErrorMessage | sokol/c/sokol_gp.h:1870-1907 | a code gets the fallback "Invalid error code" exactly when it is not one of the 16 known codes |
| Tables.ErrorMessagesDistinct | sokol/c/sokol_gp.h:1870-1907 | distinct known codes get distinct messages |
| Tables.PrimitiveOrdinal | sokol/c/sokol_gp.h:1625 | the primitive types are numbered below 6 |
| Tables.BlendOrdinal | sokol/c/sokol_gp.h:439-460 | the blend modes are numbered below 7 |
| Tables.PipelineIndex | sokol/c/sokol_gp.h:1625 | the cache slot `primitive*7 + blend` lies within the 42-entry cache and decodes back to the primitive (quotient) and the blend mode (remainder) |
| Tables.PipelineIndexInjective | sokol/c/sokol_gp.h:1625 | different (primitive, blend) pairs never share a cache slot |
| Gp.PipelineLookup | sokol/c/sokol_gp.h:1624-1635 | the lookup keeps the cache at 42 entries |
| Gp.LookupIsCached | sokol/c/sokol_gp.h:1624-1635 | once a lookup yields a valid pipeline, later lookups of the same pair return it and keep the cache whatever the backend would create; lookups of other pairs are unaffected |
| Gp.Context.LookupPipeline | sokol/c/sokol_gp.h:1624-1635 | the method over the cache array returns the handle and leaves the cache as `PipelineLookup` says |
| Regions.OverlapsIffCommonInterior | sokol/c/sokol_gp.h:2483-2485 | for boxes with an interior, the overlap test holds exactly when some point lies strictly inside both |
| Regions.SharedEdgeIsNoOverlap | sokol/c/sokol_gp.h:2483-2485 | boxes that only share an edge do not overlap, in either order |
| Regions.Union | sokol/c/sokol_gp.h:2574-2580 | the merged region contains both operands and is contained in every box that contains both |
| Regions.FoldCovers | sokol/c/sokol_gp.h:2764-2774 | the emitters' min/max fold contains its seed and every point grown by the thickness |
| Regions.FoldTight | sokol/c/sokol_gp.h:2764-2774 | each bound of the fold is the seed's or is reached by a grown point |
| Arenas.Moved | sokol/c/sokol_gp.h:2565 | `memmove`: the destination block holds the source block as it was before the move; everything else is kept |
| Arenas.MoveVertices | sokol/c/sokol_gp.h:2565 | the move over the vertex array leaves it equal to `Moved` of its old contents, for overlapping blocks in both directions |
| Arenas.CopyDown | sokol/c/sokol_gp.h:2565 | the forward copy loop moves a block down as `Moved` says |
| Arenas.CopyUp | sokol/c/sokol_gp.h:2565 | the backward copy loop moves a block up as `Moved` says |
| Gp.Context.constructor | sokol/c/sokol_gp.h:1741-1754 | arenas of the given capacities, every command NONE, no built-in pipeline made, cursors and stacks at zero, zeroed state, no error. The source sizes the uniform arena like the command arena (`num_uniforms = max_commands`); the model takes the uniform capacity separately, which includes that case |
| Gp.Context.NextVertices | sokol/c/sokol_gp.h:2340-2349 | succeeds exactly when the vertices fit; then the cursor advances by exactly `n`; otherwise only VERTICES_FULL is recorded; no other cursor moves |
| Gp.Context.PrevUniform | sokol/c/sokol_gp.h:2351-2357 | a previous uniform exists exactly when the uniform cursor is positive, whatever the segment base, and it is the one at cursor-1 |
| Gp.Context.NextUniform | sokol/c/sokol_gp.h:2359-2366 | a slot is given exactly when one is left; it is the cursor's, which advances by one; otherwise only UNIFORMS_FULL is recorded |
| Gp.Context.PrevCommand | sokol/c/sokol_gp.h:2368-2374 | the k-th last command is given exactly when the segment holds at least k commands, and it is the one at cursor-k |
| Gp.Context.NextCommand | sokol/c/sokol_gp.h:2376-2383 | a slot is given exactly when one is left; it is the cursor's, which advances by one; otherwise only COMMANDS_FULL is recorded |
| Optimizer.ScanFromSpec | sokol/c/sokol_gp.h:2494-2526 | a scan step from any reachable position finds the candidate from there, and records exactly the draws it stepped over, newest first |
| Optimizer.ScanFindsCandidate | sokol/c/sokol_gp.h:2494-2526 | the scan records at most 8 draws; when it finds a command, that command is the candidate (the nearest matching draw, past skipped NONE commands and never across the base or a VIEWPORT/SCISSOR) and the recorded draws are all draws between it and the end; when a candidate exists, the scan finds it |
| Optimizer.CandidateUnique | sokol/c/sokol_gp.h:2494-2526 | at most one command is the candidate |
| Optimizer.ScanQueue | sokol/c/sokol_gp.h:2494-2526 | the scan loop over the command array, with its growing lookup depth, returns what `Scan` defines |
| Optimizer.CheckOverlaps | sokol/c/sokol_gp.h:2528-2547 | the loop refuses exactly when some draw in between overlaps the new region and some (possibly other) one overlaps the candidate's; otherwise it reports whether the new region overlaps one |
| Optimizer.MoveCountWraps | sokol/c/sokol_gp.h:2556-2562 | for a cursor and a candidate end that fit 32 bits, the unsigned count of vertices to move exceeds 96 exactly when the candidate ends past the cursor or more than 96 vertices lie between them |
| Optimizer.MergeForward | sokol/c/sokol_gp.h:2549-2580 | the forward merge keeps arena sizes and uniforms, never moves a cursor back, and a refusal changes nothing |
| Optimizer.MergeBackward | sokol/c/sokol_gp.h:2581-2625 | the backward merge keeps arena sizes and uniforms and never moves a cursor back |
| Optimizer.Merge | sokol/c/sokol_gp.h:2487-2636 | a merge keeps the arenas' sizes and the uniforms, and moves cursors only forward within their arenas |
| Optimizer.MergeRefused | sokol/c/sokol_gp.h:2528-2547 | without a candidate, or when draws in between overlap both the new draw and the candidate, nothing merges and nothing changes |
| Optimizer.ForwardMerge | sokol/c/sokol_gp.h:2549-2580 | when no draw in between overlaps the new region, the merge succeeds exactly when there are none or the new vertices fit and at most 96 vertices move. On success the candidate grows by `n` over the union region, the draws in between move up by `n`, the new vertices follow the candidate's, and the cursors and error stay. On refusal nothing changes |
| Optimizer.ForwardVerts | sokol/c/sokol_gp.h:2564-2566 | the two block moves leave the new block right after the candidate, the block in between shifted up by `n`, and a scratch copy past the cursor |
| Optimizer.ForwardMergeDrawsBoth | sokol/c/sokol_gp.h:2549-2580 | after a forward merge that moves vertices, the candidate draws its own vertices followed by the new ones, and each draw in between still draws the same vertices |
| Optimizer.ForwardMergeExtendsInPlace | sokol/c/sokol_gp.h:2574-2580 | with no draw in between, the candidate simply grows over the `n` vertices after it, which are the new ones when they directly follow it |
| Optimizer.BackwardMerge | sokol/c/sokol_gp.h:2581-2625 | when draws in between overlap the new region but none overlaps the candidate's, a command slot is taken first (COMMANDS_FULL when none is left) and stays taken on refusal. The merge succeeds exactly when the candidate's vertices fit and the new draw has at most 96. On success the appended draw has the key's pipeline and textures, the union region and the candidate's uniform; it covers the candidate's vertices copied in front of the new ones; the candidate becomes NONE |
| Optimizer.BackwardVerts | sokol/c/sokol_gp.h:2602-2604 | the two block moves keep everything below the new block and put the candidate's block in front of the new one |
| Optimizer.BackwardMergeDrawsBoth | sokol/c/sokol_gp.h:2581-2625 | after a backward merge, the new command draws the candidate's vertices followed by the new ones, the candidate draws nothing, and every other draw of the segment draws the same vertices |
| Optimizer.MergeKeepsBindings | sokol/c/sokol_gp.h:2487-2636 | after a successful merge, some draw of the segment has the new draw's pipeline, textures and uniform over a region containing the new one |
| Optimizer.MergeKeepsOrder | sokol/c/sokol_gp.h:2487-2636 | a successful merge keeps the segment's draws using vertices in command order, all below the vertex cursor |
| Optimizer.MergeKeepsReadable | sokol/c/sokol_gp.h:2614-2624 | a merge keeps every queued draw's uniform index readable |
| Optimizer.ShiftIntermediates | sokol/c/sokol_gp.h:2568-2571 | the loop over the draws in between leaves exactly those shifted up by `n` |
| Gp.Context.MergeBatchCommand | sokol/c/sokol_gp.h:2487-2636 | the in-place merge over the arrays leaves the arenas and reports success as `Merge` defines |
| Gp.Context.MergeForward | sokol/c/sokol_gp.h:2549-2580 | the forward branch over the arrays agrees with `Optimizer.MergeForward` |
| Gp.Context.ForwardMoves | sokol/c/sokol_gp.h:2564-2566 | the two memmoves leave the vertex array as `ForwardVerts` says |
| Gp.Context.MergeBackward | sokol/c/sokol_gp.h:2581-2625 | the backward branch over the arrays agrees with `Optimizer.MergeBackward`, slot leak included |
| Gp.Context.BackwardMoves | sokol/c/sokol_gp.h:2602-2604 | the memmove and memcpy leave the vertex array as `BackwardVerts` says |
| Optimizer.AppendDraw | sokol/c/sokol_gp.h:2664-2694 | without a merge, the draw is appended with the given pipeline, the state's textures, the region and its vertices. A custom pipeline's uniform is stored unless equal to the last stored one, and the draw refers to the last slot; built-in pipelines carry the impossible index. On a full uniform arena the vertex cursor goes back by exactly `n`, UNIFORMS_FULL is recorded, and nothing else changes. On a full command arena the vertex cursor goes back by exactly `n` and COMMANDS_FULL is recorded, but a uniform stored for the draw stays stored with its cursor advanced |
| Optimizer.QueueDraw | sokol/c/sokol_gp.h:2638-2694 | a draw with no pipeline (after a custom pipeline overrides the looked-up one) or a wholly off-screen region changes nothing but the vertex cursor, which goes back by exactly `n`; a strip never moves vertices or rewrites earlier commands; the vertex cursor otherwise goes back by exactly `n` or does not go back, and the other cursors never go back |
| Optimizer.QueueDrawOutcome | sokol/c/sokol_gp.h:2638-2694 | for a segment in command order, an on-screen draw with a pipeline either has its vertices given back with UNIFORMS_FULL or COMMANDS_FULL and no command changed, or ends up drawn last by one draw of the segment with its bindings and a region containing its own, every other draw reading the vertices it read before; the exception is a candidate grown over vertices claimed and never queued |
| Optimizer.QueueDrawKeepsOrder | sokol/c/sokol_gp.h:2638-2694 | queueing a draw keeps the segment's draws in command order below the vertex cursor, except when a refused backward merge took a slot that still holds an earlier frame's draw |
| Optimizer.QueueDrawKeepsReadable | sokol/c/sokol_gp.h:2638-2694 | queueing a draw keeps every queued draw's uniform index readable, which flush relies on |
| Gp.Context.QueueDraw | sokol/c/sokol_gp.h:2638-2694 | the method over the arrays leaves the arenas as `Optimizer.QueueDraw` defines and keeps the context valid |
| Gp.Context.AppendDraw | sokol/c/sokol_gp.h:2664-2694 | the append over the arrays agrees with `Optimizer.AppendDraw` |
| Gp.WrittenAt | sokol/c/sokol_gp.h:2340-2349 | writing at the vertex cursor advances it by the number of vertices and touches no other arena |
| Gp.Emitted | sokol/c/sokol_gp.h:2747-2779 | an emitter keeps the arenas' sizes and cursor bounds; when its vertices do not fit, only VERTICES_FULL is recorded |
| Gp.DroppedDrawGivesBack | sokol/c/sokol_gp.h:2639-2656 | a draw with no pipeline, or wholly off-screen, leaves cursors, commands, uniforms and error as they were; only the space past the cursor holds its vertices |
| Gp.StripDrawIsAppended | sokol/c/sokol_gp.h:2658-2694 | a valid on-screen strip with room is appended as a new command drawing exactly its written vertices over its region |
| Gp.EmittedKeepsOrder | sokol/c/sokol_gp.h:2747-2779 | an emitter keeps the segment's draws in command order below the vertex cursor, except when a refused backward merge took a slot that still holds an earlier frame's draw |
| Gp.StaleSlotJoinsSegment | sokol/c/sokol_gp.h:2581-2600 | a concrete queue where a backward merge takes a slot holding an earlier frame's draw and is refused (102 vertices are too many to move); the draw is appended after it, the segment stops using vertices in order, and flush replays the stale draw call between the others |
| Gp.TexturedEmitted | sokol/c/sokol_gp.h:2924-2939 | no rectangles, or an unbound channel, change nothing |
| Gp.ZeroSizedImageLeaksVertices | sokol/c/sokol_gp.h:2936-2945 | with a bound image of zero width or height, the vertex cursor advances by 6 per rectangle; vertices, commands and cache stay as they were |
| Dispatch.DrawStep | sokol/c/sokol_gp.h:2029-2086 | replaying a non-empty draw ends in its draw call at `vertex_index - base_vertex` and leaves the trackers at its pipeline, uniform index and per-slot images |
| Dispatch.DrawStepRules | sokol/c/sokol_gp.h:2036-2081 | the pipeline is applied exactly when it changes. Bindings are applied exactly on a pipeline change or a changed image in some slot. Uniforms are applied exactly when the draw has a non-impossible index, the bindings were applied or the index changed, and the uniform is non-empty. The uniform events are the stage bytes of that uniform |
| Dispatch.DrawStepParts | sokol/c/sokol_gp.h:2036-2084 | a draw's events are pipeline, then bindings, then uniforms, then the draw call, each present under its condition |
| Dispatch.Flush | sokol/c/sokol_gp.h:1970-2000 | the cursors are rewound to the bases in every case. Nothing is sent after an error or for an empty segment. Otherwise the segment's vertices are uploaded first; overflow records VERTICES_OVERFLOW exactly when the backend reports it, and then nothing else is sent |
| Dispatch.ReplayShowsCommands | sokol/c/sokol_gp.h:2016-2091 | suppressing redundant calls never drops, adds or reorders a visible call: the viewports, scissors and draw calls sent are exactly those of the commands, in order, with NONE and empty draws skipped |
| Dispatch.RepeatedDrawOnlyDraws | sokol/c/sokol_gp.h:2036-2083 | a draw with the same pipeline, images and uniform index as the one just replayed costs one draw call |
| Dispatch.SamplerOnlyChangeNotBound | sokol/c/sokol_gp.h:2044-2063 | a draw that changes only samplers gets no bindings call and is drawn with the earlier draw's samplers |
| Dispatch.BindSlots | sokol/c/sokol_gp.h:2044-2059 | the bindings loop over the four slots computes the rebinding and the change flag `Rebind` and `ImagesChanged` define |
| Dispatch.UniformCalls | sokol/c/sokol_gp.h:2071-2080 | the vertex-stage bytes then the fragment-stage bytes, each only when non-empty |
| Dispatch.ReplayDraw | sokol/c/sokol_gp.h:2029-2086 | the loop body for a draw agrees with `DrawStep` |
| Dispatch.ReplayCommands | sokol/c/sokol_gp.h:2016-2091 | the command loop produces exactly the events of `Replay` |
| Gp.Context.Flush | sokol/c/sokol_gp.h:1970-2092 | flush over the arrays returns the events and leaves the cursors and error as `Dispatch.Flush` defines |
| Stacks.Begin | sokol/c/sokol_gp.h:1928-1968 | on a full stack only STATE_STACK_OVERFLOW is recorded. Otherwise the state is pushed, the error cleared, the bases set to the cursors, and the custom pipeline kept |
| DrawState.BeginState | sokol/c/sokol_gp.h:1941-1967 | the new segment keeps the pipeline. It has the frame size, projection and thickness given, white color, a zeroed uniform and blend mode NONE. Its bases are the cursors, its viewport the whole frame, and its scissor the reset sentinel covering that viewport. The matrix is the projection with the identity transform. There is one texture: the white image, with the nearest sampler in every slot |
| Stacks.End | sokol/c/sokol_gp.h:2094-2103 | the last pushed state comes back, or only STATE_STACK_UNDERFLOW is recorded |
| Stacks.EndUndoesBegin | sokol/c/sokol_gp.h:1928-2103 | `sgp_end` after a `sgp_begin` that fits gives back the state and stack, with the error cleared |
| Stacks.NestedSegments | sokol/c/sokol_gp.h:1928-2103 | k begins that fit, followed by k ends, give back the state and stack |
| Stacks.PushTransform | sokol/c/sokol_gp.h:2135-2143 | the transform is pushed, or only TRANSFORM_STACK_OVERFLOW is recorded |
| Stacks.PopTransform | sokol/c/sokol_gp.h:2145-2154 | the pushed transform comes back with the matrix recomputed from the projection and nothing else changes, or only TRANSFORM_STACK_UNDERFLOW is recorded |
| Stacks.PopUndoesPush | sokol/c/sokol_gp.h:2135-2154 | when the matrix is the projection times the transform, a pop right after a push that fits gives back the same stack and state |
| Gp.Context.Begin | sokol/c/sokol_gp.h:1928-1968 | the method over the state stack array agrees with `Stacks.Begin` and moves no arena cursor |
| Gp.Context.End | sokol/c/sokol_gp.h:2094-2103 | agrees with `Stacks.End` |
| Gp.Context.PushTransform | sokol/c/sokol_gp.h:2135-2143 | agrees with `Stacks.PushTransform` |
| Gp.Context.PopTransform | sokol/c/sokol_gp.h:2145-2154 | agrees with `Stacks.PopTransform` |
| Emit.MulProjComposes | sokol/c/sokol_gp.h:2105-2113 | for a projection without shear, mapping by the shortcut product is mapping by the transform, then by the projection |
| Gp.Context.SetPipeline | sokol/c/sokol_gp.h:2221-2233 | the state takes the pipeline (INVALID_ID resets to the built-in ones) and a zeroed uniform; the arenas are untouched |
| DrawState.SetUniform | sokol/c/sokol_gp.h:2235-2255 | the stored sizes are the stage byte counts |
| DrawState.SetUniformGrowing | sokol/c/sokol_gp.h:2235-2255 | when the uniform does not shrink, the payload holds the vertex-stage bytes then the fragment-stage bytes, and the bytes past them are kept |
| DrawState.SetUniformShrinking | sokol/c/sokol_gp.h:2248-2252 | when it shrinks, payload bytes [size-4, old_size-4) are zero, the other bytes below the new size hold the stage bytes, and the rest keep their old values |
| DrawState.ShrinkClobbersPayload | sokol/c/sokol_gp.h:526-530 | shrinking a 16-byte uniform to 8 bytes of 0xff loses new bytes 4-7 and keeps stale byte 12 |
| DrawState.SetUniformAgainStoresPayload | sokol/c/sokol_gp.h:2235-2255 | setting the same data twice stores it intact |
| DrawState.SetUniformAfterReset | sokol/c/sokol_gp.h:2221-2255 | after a pipeline change or begin, the first `sgp_set_uniform` stores its bytes intact, with zeros after them |
| Gp.Context.SetUniform | sokol/c/sokol_gp.h:2235-2255 | the state's uniform becomes `DrawState.SetUniform` of the old one; the arenas are untouched |
| DrawState.HighestImage | sokol/c/sokol_gp.h:2300-2307 | the search down from a slot finds the highest slot holding an image, or reports that none does |
| DrawState.SetImageCounts | sokol/c/sokol_gp.h:2290-2309 | the slot holds the image and no other slot or sampler changes. Storing the image the slot already holds changes nothing. Otherwise, when some slot holds an image, the count ends right after the highest such slot; when none does, the count is unchanged. The count covers the channel when the image is valid |
| DrawState.RecountLoop | sokol/c/sokol_gp.h:2300-2307 | the count loop computes the count `RecountTextures` defines |
| Gp.Context.SetImage | sokol/c/sokol_gp.h:2290-2309 | the state's textures become `DrawState.SetImage` of the old ones; the arenas are untouched |
| Gp.Context.ResetImage | sokol/c/sokol_gp.h:2316-2324 | slot 0 gets the white image back and any other slot INVALID_ID, through `DrawState.SetImage`; the arenas are untouched |
| Gp.Context.SetBlendMode | sokol/c/sokol_gp.h:2263-2266 | the state takes the blend mode, which selects the built-in pipeline of later draws; nothing else changes |
| DrawState.PlaceStateCommand | sokol/c/sokol_gp.h:2395-2401 | the command is placed exactly when a slot is left or the segment's last command has the same kind; otherwise only COMMANDS_FULL is recorded. On success the cursor stays past the base and advances by at most one, the segment ends in the command, and the commands before it and the error are kept. Vertices, uniforms and their cursors never change |
| DrawState.StateCommandsCoalesce | sokol/c/sokol_gp.h:2395-2401 | two viewport (or scissor) changes in a row leave the queue the second alone would leave |
| DrawState.ViewportOutcome | sokol/c/sokol_gp.h:2385-2420 | the same viewport changes nothing. With no slot to reuse or take, only COMMANDS_FULL is recorded and the state is kept. Otherwise the cursor stays past the base and advances by at most one, the segment ends in the viewport command, the commands before it and the error are kept, and the state takes the viewport, its projection and thickness, and the product of projection and transform |
| DrawState.ViewportShiftsScissor | sokol/c/sokol_gp.h:2409-2413 | no scissor command is placed. A set scissor, stored relative to the viewport, shifts by the delta, so the framebuffer rectangle it stands for shifts by twice the delta; a reset scissor stays reset |
| DrawState.ScissorCommandRect | sokol/c/sokol_gp.h:2442-2450 | the rectangle a scissor command records is the framebuffer rectangle of the new scissor |
| DrawState.ScissorRecordsScreenRect | sokol/c/sokol_gp.h:2428-2462 | a placed scissor command holds the framebuffer rectangle of the scissor the state keeps (the whole frame for the reset sentinel); the cursor stays past the base and advances by at most one |
| DrawState.ScissorOutcome | sokol/c/sokol_gp.h:2428-2462 | the same scissor changes nothing. With no slot to reuse or take, only COMMANDS_FULL is recorded and the state is kept. Otherwise the cursor stays past the base and advances by at most one, the segment ends in the scissor command, the commands before it and the error are kept, and the state takes the scissor and nothing else |
| Gp.Context.StateCommandSlot | sokol/c/sokol_gp.h:2395-2401 | takes the slot `PlaceStateCommand` chooses, or reports that none is left |
| Gp.Context.Viewport | sokol/c/sokol_gp.h:2385-2420 | agrees with `DrawState.Viewport` on the arenas and the state |
| Gp.Context.Scissor | sokol/c/sokol_gp.h:2428-2462 | agrees with `DrawState.Scissor` on the arenas and the state |
| Emit.ClearRegionIsFold | sokol/c/sokol_gp.h:2710-2745 | the fixed region `sgp_clear` queues is exactly the fold over its six vertices |
| Emit.Positions | sokol/c/sokol_gp.h:2765-2774 | the positions of the vertices, one per vertex |
| Emit.DrawVertices | sokol/c/sokol_gp.h:2761-2774 | one vertex out per vertex in |
| Emit.SolidVertices | sokol/c/sokol_gp.h:2795-2810 | one vertex out per point in |
| Emit.SolidIsPlainDraw | sokol/c/sokol_gp.h:2781-2815 | the solid emitter writes what `sgp_draw` would for untextured vertices in the state color |
| Emit.LinePoints | sokol/c/sokol_gp.h:2826-2828 | two points per line, in order |
| Emit.TrianglePoints | sokol/c/sokol_gp.h:2839-2841 | three points per triangle, in order |
| Emit.RectVertices | sokol/c/sokol_gp.h:2852-2908 | six vertices per rectangle |
| Emit.RectCorners | sokol/c/sokol_gp.h:2852-2908 | four mapped corners per rectangle |
| Emit.TexturedVertices | sokol/c/sokol_gp.h:2924-3004 | six vertices per textured rectangle |
| Emit.RectVerticesOnCorners | sokol/c/sokol_gp.h:2874-2903 | every emitted vertex lies on a mapped corner of its rectangle (layout 0,1,2,3,0,2), and every corner is some vertex's position |
| Emit.RectRegionBoundsVertices | sokol/c/sokol_gp.h:2874-2903 | the region a rectangle emitter queues covers every emitted vertex, and each of its bounds is reached by one |
| Emit.DrawRegionBoundsVertices | sokol/c/sokol_gp.h:2766-2772 | the region of `sgp_draw` and the solid emitters covers every emitted position grown by the thickness |
| Emit.WholeImageIsFilledRect | sokol/c/sokol_gp.h:2949-2998 | textured rectangles whose source is the whole image emit exactly the vertices of the filled destinations |
| Emit.FillDraw | sokol/c/sokol_gp.h:2761-2774 | the fill loop writes `DrawVertices` at the cursor and returns its fold region |
| Emit.FillSolid | sokol/c/sokol_gp.h:2795-2810 | the fill loop writes `SolidVertices` at the cursor and returns its fold region |
| Emit.FillRects | sokol/c/sokol_gp.h:2868-2903 | the fill loop writes `RectVertices` at the cursor and returns the fold over the mapped corners |
| Emit.FillTexturedRects | sokol/c/sokol_gp.h:2949-2998 | the fill loop writes `TexturedVertices` at the cursor and returns the fold over the destinations' corners |
| Gp.Context.Clear | sokol/c/sokol_gp.h:2710-2745 | `sgp_clear` queues the clip square as triangles without blending, as `Emitted` defines |
| Gp.Context.DrawVerts | sokol/c/sokol_gp.h:2747-2779 | `sgp_draw` queues the mapped vertices over their fold region grown for points and lines |
| Gp.Context.DrawSolid | sokol/c/sokol_gp.h:2781-2850 | `_sgp_draw_solid_pip` queues the mapped points in the state color over their fold region |
| Gp.Context.DrawLines | sokol/c/sokol_gp.h:2826-2828 | `sgp_draw_lines` queues two points per line as lines |
| Gp.Context.DrawFilledTriangles | sokol/c/sokol_gp.h:2839-2841 | `sgp_draw_filled_triangles` queues three points per triangle as triangles |
| Gp.Context.DrawFilledRects | sokol/c/sokol_gp.h:2852-2908 | `sgp_draw_filled_rects` queues six vertices per rectangle over the fold of the mapped corners |
| Gp.Context.DrawTexturedRects | sokol/c/sokol_gp.h:2924-3004 | `sgp_draw_textured_rects` leaves the context as `TexturedEmitted` defines, zero-size leak included |

## Left out

- Floating point is modelled with real numbers, without single-precision rounding. `Emit.Apply` and `Emit.MulProj` are the source's formulas over reals.
- `_sgp_default_proj` and the stroke thickness `max(1/w, 1/h)` are functions supplied when the context is constructed; their formulas are not modelled.
- `sgp_translate`, `sgp_rotate`, `sgp_scale`, `sgp_project` and `sgp_set_color` are not modelled. They only change the matrix or the color in the state, never the queue.
- The backend calls of `sgp_flush` become `Dispatch.Event` values. Whether the vertex buffer overflowed is an input (`overflow`), and the offset returned by `sg_append_buffer` is not modelled.
- `_sgp_query_image_size` is replaced by a size parameter of `DrawTexturedRects`, because it reads sokol_gfx internals.
- Backend pipeline creation (`_sgp_make_pipeline`) is the `created` parameter of the lookup. It is the handle the backend would return, and INVALID_ID when creation fails.
- `sgp_setup`, `sgp_shutdown`, the shader blobs, backend shader selection, logging and the init cookie are not modelled.
- The `SOKOL_ASSERT`s become `requires` clauses, such as `curState > 0` and a channel below 4.
- Optimizer.Matches: the scan compares a draw's uniform only when its index lies in the uniform arena, and otherwise treats the draw as not matching. The source reads `_sgp.uniforms[cmd->args.draw.uniform_index]` unchecked (line 2516), which reads outside the arena for the impossible index.
- Optimizer.MergeBackward: a candidate whose vertices lie past the end of the vertex arena (only a draw left by an earlier frame can) is refused, where the source's `memcpy` would read outside the buffer.
- The `memcpy` calls of both merges (lines 2566 and 2604) are modelled as `memmove`. They overlap only for a draw left by an earlier frame, where C leaves the result undefined.
- Optimizer.MoveCountWraps: the equivalence is proved for cursors below 2^32 and candidate ends below 2^32 - 96, the range where arenas fit in memory.
- `uint32_t` cursor and count arithmetic is unbounded in the model, except the count of vertices a forward merge moves (`U32Sub`). Other wrap-around cannot happen for arenas that fit in memory.
- `sgp_draw_lines_strip`, `sgp_draw_points` and `sgp_draw_filled_triangles_strip` are `Gp.Context.DrawSolid` called with the matching primitive. `sgp_draw_point`, `sgp_draw_line`, `sgp_draw_filled_triangle`, `sgp_draw_filled_rect` and `sgp_draw_textured_rect` are the single-element case of their plural forms.
- `sgp_reset_viewport` and `sgp_reset_scissor` are `Viewport` and `Scissor` called with the frame size and the reset sentinel. `sgp_unset_image` is `SetImage` called with INVALID_ID, and `sgp_reset_image` is `Gp.Context.ResetImage`. `sgp_reset_blend_mode` is `SetBlendMode` called with NONE.
- Optimizer.MergeForward, Optimizer.MergeBackward, Optimizer.Merge: their own contracts only bound the result. The full outcome of each branch is stated by `Optimizer.ForwardMerge`, `Optimizer.BackwardMerge` and `Optimizer.MergeRefused`.
- Gp.PipelineLookup: its own contract only keeps the cache size. What a lookup returns is stated by `Gp.LookupIsCached`.
