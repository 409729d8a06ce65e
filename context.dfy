/** The sokol_gp context: the three arenas, the draw state with its two stacks, the pipeline
    cache, and the public calls that change them. Each method is proved to leave the context
    as the pure definition of its module says. */
module Gp {
  import opened Types
  import opened Regions
  import opened Arenas
  import Optimizer
  import Dispatch
  import DrawState
  import opened Emit
  import Tables
  import Stacks

  /** Result of a pipeline lookup: the handle and the cache afterwards. */
  datatype Found = Found(pip: nat, cache: seq<nat>)

  /** _sgp_lookup_pipeline: a cached built-in pipeline is returned as is; otherwise the one the
      backend creates (`created`, invalid when creation fails) is returned, and cached when
      valid. */
  function PipelineLookup(cache: seq<nat>, prim: PrimitiveType, blend: BlendMode, created: nat): (r: Found)
    requires |cache| == PIPELINE_CACHE_SIZE
    ensures |r.cache| == PIPELINE_CACHE_SIZE
  {
    var i := Tables.PipelineIndex(prim, blend);
    if cache[i] != INVALID_ID then Found(cache[i], cache)
    else if created != INVALID_ID then Found(created, cache[i := created])
    else Found(created, cache)
  }

  /** Once a lookup yields a valid pipeline, every later lookup of the same pair yields it
      again whatever the backend would create, and lookups of other pairs are not affected. */
  lemma LookupIsCached(cache: seq<nat>, prim: PrimitiveType, blend: BlendMode, created: nat,
                       prim2: PrimitiveType, blend2: BlendMode, created2: nat)
    requires |cache| == PIPELINE_CACHE_SIZE
    ensures var r := PipelineLookup(cache, prim, blend, created);
      && (r.pip != INVALID_ID ==> PipelineLookup(r.cache, prim, blend, created2) == Found(r.pip, r.cache))
      && ((prim2 != prim || blend2 != blend) ==>
            PipelineLookup(r.cache, prim2, blend2, created2).pip == PipelineLookup(cache, prim2, blend2, created2).pip)
  {
    if prim2 != prim || blend2 != blend {
      if Tables.PipelineIndex(prim2, blend2) == Tables.PipelineIndex(prim, blend) {
        Tables.PipelineIndexInjective(prim2, blend2, prim, blend);
      }
    }
  }

  /** The arenas together with the pipeline cache. */
  datatype Outcome = Outcome(queue: Queue, cache: seq<nat>)

  /** The arena after `vs` were written at the vertex cursor and claimed. */
  function WrittenAt(q: Queue, vs: seq<Vertex>): (w: Queue)
    requires q.curVertex + |vs| <= |q.verts|
    ensures Bounded(q) ==> Bounded(w)
    ensures w.cmds == q.cmds && w.uniforms == q.uniforms && |w.verts| == |q.verts|
    ensures w.curCommand == q.curCommand && w.curUniform == q.curUniform && w.curVertex == q.curVertex + |vs|
  {
    q.(verts := Written(q.verts, q.curVertex, vs), curVertex := q.curVertex + |vs|)
  }

  /** The tail of every emitter: look up the built-in pipeline and queue the draw of the `n`
      vertices written at `vi`. */
  function Queued(w: Queue, cache: seq<nat>, st: State, prim: PrimitiveType, blend: BlendMode, created: nat,
                  region: Region, vi: nat, n: nat): (r: Outcome)
    requires Optimizer.MergeReady(w, st.baseCommand, vi, n) && |cache| == PIPELINE_CACHE_SIZE
    ensures Bounded(r.queue) && |r.queue.verts| == |w.verts| && |r.queue.cmds| == |w.cmds| && |r.queue.uniforms| == |w.uniforms|
  {
    var found := PipelineLookup(cache, prim, blend, created);
    Outcome(Optimizer.QueueDraw(w, st, found.pip, region, vi, n, prim), found.cache)
  }

  /** What every emitter does with the vertices and region it computed: nothing for no
      vertices; otherwise claim them (only VERTICES_FULL is recorded when they do not fit),
      write them at the cursor, look up the built-in pipeline and queue the draw. */
  function Emitted(q: Queue, cache: seq<nat>, st: State, prim: PrimitiveType, blend: BlendMode, created: nat,
                   vs: seq<Vertex>, region: Region): (r: Outcome)
    requires Bounded(q) && st.baseCommand <= q.curCommand
    requires |cache| == PIPELINE_CACHE_SIZE
    ensures Bounded(r.queue) && |r.queue.verts| == |q.verts| && |r.queue.cmds| == |q.cmds| && |r.queue.uniforms| == |q.uniforms|
    ensures q.curVertex + |vs| > |q.verts| ==> r == Outcome(q.(lastError := VerticesFull), cache)
  {
    if |vs| == 0 then Outcome(q, cache)
    else if q.curVertex + |vs| > |q.verts| then Outcome(q.(lastError := VerticesFull), cache)
    else Queued(WrittenAt(q, vs), cache, st, prim, blend, created, region, q.curVertex, |vs|)
  }

  /** A draw that is dropped (no pipeline, or wholly off-screen) gives back exactly the vertices
      it claimed: cursors, commands, uniforms and error are as before, and only the vertex arena
      past the cursor holds the vertices that were written. */
  lemma DroppedDrawGivesBack(q: Queue, cache: seq<nat>, st: State, prim: PrimitiveType, blend: BlendMode, created: nat,
                             vs: seq<Vertex>, region: Region)
    requires Bounded(q) && st.baseCommand <= q.curCommand
    requires |cache| == PIPELINE_CACHE_SIZE && q.curVertex + |vs| <= |q.verts|
    requires Optimizer.EffectivePipeline(st, PipelineLookup(cache, prim, blend, created).pip) == INVALID_ID || OffScreen(region)
    ensures var r := Emitted(q, cache, st, prim, blend, created, vs, region).queue;
      && r.curVertex == q.curVertex && r.curUniform == q.curUniform && r.curCommand == q.curCommand
      && r.cmds == q.cmds && r.uniforms == q.uniforms && r.lastError == q.lastError
      && r.verts[..q.curVertex] == q.verts[..q.curVertex]
      && r.verts[q.curVertex..q.curVertex + |vs|] == vs
  {
    if |vs| > 0 {
      var w := WrittenAt(q, vs);
      var found := PipelineLookup(cache, prim, blend, created);
      assert Emitted(q, cache, st, prim, blend, created, vs, region).queue
        == Optimizer.QueueDraw(w, st, found.pip, region, q.curVertex, |vs|, prim)
        == w.(curVertex := q.curVertex);
      assert w.verts[..q.curVertex] == q.verts[..q.curVertex];
      assert w.verts[q.curVertex..q.curVertex + |vs|] == vs;
    }
  }

  /** A strip draw is never merged: when its pipeline is valid, it is on screen and there is
      room for its uniform and command, it is appended as a new command that draws exactly the
      vertices written for it, over the region computed for it. */
  lemma StripDrawIsAppended(q: Queue, cache: seq<nat>, st: State, prim: PrimitiveType, blend: BlendMode, created: nat,
                            vs: seq<Vertex>, region: Region)
    requires Bounded(q) && st.baseCommand <= q.curCommand
    requires |cache| == PIPELINE_CACHE_SIZE && q.curVertex + |vs| <= |q.verts|
    requires IsStrip(prim) && !OffScreen(region) && |vs| > 0
    requires Optimizer.EffectivePipeline(st, PipelineLookup(cache, prim, blend, created).pip) != INVALID_ID
    requires q.curCommand < |q.cmds| && q.curUniform < |q.uniforms|
    ensures var r := Emitted(q, cache, st, prim, blend, created, vs, region).queue;
      && r.curCommand == q.curCommand + 1 && r.curVertex == q.curVertex + |vs|
      && r.cmds[..q.curCommand] == q.cmds[..q.curCommand]
      && r.cmds[q.curCommand].Draw?
      && r.cmds[q.curCommand].args.vertexIndex == q.curVertex
      && r.cmds[q.curCommand].args.numVertices == |vs|
      && r.cmds[q.curCommand].args.region == region
      && r.verts[q.curVertex..q.curVertex + |vs|] == vs
  {
    var w := Written(q.verts, q.curVertex, vs);
    assert w[q.curVertex..q.curVertex + |vs|] == vs;
  }

  /** sgp_draw_textured_rects: nothing for no rectangles or an unbound channel. A zero-sized
      image leaves the claimed vertices claimed and unwritten, and queues nothing. */
  function TexturedEmitted(q: Queue, cache: seq<nat>, st: State, channel: nat, created: nat,
                           rects: seq<TexturedRect>, size: ISize): (r: Outcome)
    requires Bounded(q) && st.baseCommand <= q.curCommand
    requires |cache| == PIPELINE_CACHE_SIZE && channel < TEXTURE_SLOTS
    ensures (|rects| == 0 || st.textures.images[channel] == INVALID_ID) ==> r == Outcome(q, cache)
  {
    var n := 6 * |rects|;
    if |rects| == 0 || st.textures.images[channel] == INVALID_ID then Outcome(q, cache)
    else if q.curVertex + n > |q.verts| then Outcome(q.(lastError := VerticesFull), cache)
    else if size.w == 0 || size.h == 0 then Outcome(q.(curVertex := q.curVertex + n), cache)
    else
      var iw, ih := 1.0 / (size.w as real), 1.0 / (size.h as real);
      Emitted(q, cache, st, Triangles, st.blendMode, created, TexturedVertices(st.mvp, rects, iw, ih, st.color),
              FoldRegion(EMPTY_REGION, RectCorners(st.mvp, Destinations(rects)), 0.0))
  }

  /** A textured draw from a bound image of zero width or height claims its vertices and never
      gives them back: the vertex cursor advances past vertices nothing draws. */
  lemma ZeroSizedImageLeaksVertices(q: Queue, cache: seq<nat>, st: State, channel: nat, created: nat,
                                    rects: seq<TexturedRect>, size: ISize)
    requires Bounded(q) && st.baseCommand <= q.curCommand
    requires |cache| == PIPELINE_CACHE_SIZE && channel < TEXTURE_SLOTS && q.curVertex + 6 * |rects| <= |q.verts|
    requires |rects| > 0 && st.textures.images[channel] != INVALID_ID && (size.w == 0 || size.h == 0)
    ensures var r := TexturedEmitted(q, cache, st, channel, created, rects, size);
      && r.queue.curVertex == q.curVertex + 6 * |rects|
      && r.queue.verts == q.verts && r.queue.cmds == q.cmds && r.queue.curCommand == q.curCommand
      && r.cache == cache
      && (SpansBelow(q.cmds, st.baseCommand, q.curCommand, q.curVertex) ==>
            SpansBelow(r.queue.cmds, st.baseCommand, r.queue.curCommand, r.queue.curVertex))
  {
  }

  /** Emitting keeps a segment's draws in order before the vertex cursor, except when a
      refused backward merge left a stale draw in the slot it took. */
  lemma EmittedKeepsOrder(q: Queue, cache: seq<nat>, st: State, prim: PrimitiveType, blend: BlendMode, created: nat,
                          vs: seq<Vertex>, region: Region)
    requires Bounded(q) && st.baseCommand <= q.curCommand && |cache| == PIPELINE_CACHE_SIZE
    requires InOrder(q.cmds, st.baseCommand, q.curCommand, q.curVertex)
    ensures var r := Emitted(q, cache, st, prim, blend, created, vs, region).queue;
      InOrder(r.cmds, st.baseCommand, r.curCommand, r.curVertex) || Optimizer.StaleSlotKept(q, r)
  {
    if |vs| > 0 && q.curVertex + |vs| <= |q.verts| {
      var w := WrittenAt(q, vs);
      var found := PipelineLookup(cache, prim, blend, created);
      Optimizer.QueueDrawKeepsOrder(w, st, found.pip, region, q.curVertex, |vs|, prim);
    }
  }

  /** A draw of an earlier frame, still in command slot 2 after a flush rewound the cursor. */
  const STALE_DRAW: Command := Draw(DrawArgs(5, ZERO_TEXTURES, Region(-0.5, -0.5, -0.4, -0.4), IMPOSSIBLE_ID, 500, 6))

  /** The segment draw of pipeline 9 that the new draw overlaps. */
  const BLOCKING_DRAW: Command := Draw(DrawArgs(9, ZERO_TEXTURES, Region(0.5, 0.5, 0.9, 0.9), IMPOSSIBLE_ID, 6, 6))

  /** A segment of two draws (pipelines 7 and 9) over vertices [0, 12), with the 102 vertices
      of a new draw already written at 12; the slot after them holds STALE_DRAW. */
  function StaleSlotQueue(): Queue
  {
    Queue(seq(600, _ => Vertex(Vec2(0.0, 0.0), Vec2(0.0, 0.0), WHITE)), [],
          [Draw(DrawArgs(7, ZERO_TEXTURES, Region(0.0, 0.0, 0.2, 0.2), IMPOSSIBLE_ID, 0, 6)), BLOCKING_DRAW, STALE_DRAW, NoneCmd],
          114, 0, 2, NoError)
  }

  /** The draw the new vertices get: pipeline 7, no uniform, 102 vertices at 12. */
  const NEW_DRAW: Command := Draw(DrawArgs(7, ZERO_TEXTURES, Region(0.25, 0.25, 0.75, 0.75), IMPOSSIBLE_ID, 12, 102))

  /** StaleSlotQueue after the new draw was queued. */
  function StaleSlotQueued(): Queue
  {
    StaleSlotQueue().(cmds := StaleSlotQueue().cmds[3 := NEW_DRAW], curCommand := 4)
  }

  /** A refused backward merge lets a stale draw join the segment, and the next flush draws
      it: the new draw of pipeline 7 overlaps draw 1 but not draw 0, so a backward merge into
      draw 0 takes slot 2 and is refused (102 vertices are too many to move), and the draw is
      appended in slot 3. The segment now holds the earlier frame's draw, whose vertices lie
      past the vertex cursor, and its draw call is replayed between the others. */
  lemma StaleSlotJoinsSegment()
    ensures var q := StaleSlotQueue();
      var r := Optimizer.QueueDraw(q, ZERO_STATE, 7, Region(0.25, 0.25, 0.75, 0.75), 12, 102, Triangles);
      && r.curCommand == 4 && r.curVertex == 114 && r.lastError == NoError
      && r.cmds == q.cmds[3 := NEW_DRAW]
      && Optimizer.StaleSlotKept(q, r)
      && !SpansBelow(r.cmds, ZERO_STATE.baseCommand, r.curCommand, r.curVertex)
      && Dispatch.VisibleEvents(Dispatch.Flush(r, ZERO_STATE, false).events)
         == [Dispatch.DrawCall(0, 6), Dispatch.DrawCall(6, 6), Dispatch.DrawCall(500, 6), Dispatch.DrawCall(12, 102)]
  {
    StaleSlotTaken();
    var r := StaleSlotQueued();
    assert r.cmds[2] == STALE_DRAW;
    StaleSlotReplayed(r);
  }

  /** The queueing step of StaleSlotJoinsSegment. */
  lemma StaleSlotTaken()
    ensures Optimizer.QueueDraw(StaleSlotQueue(), ZERO_STATE, 7, Region(0.25, 0.25, 0.75, 0.75), 12, 102, Triangles)
            == StaleSlotQueued()
  {
    var q := StaleSlotQueue();
    var region := Region(0.25, 0.25, 0.75, 0.75);
    var key := Optimizer.DrawKey(7, ZERO_TEXTURES, None);
    assert Optimizer.Scan(q.cmds, q.uniforms, 0, 2, key) == Optimizer.ScanResult(Some(0), [1]);
    var inters: seq<nat> := [1];
    assert inters[0] < |q.cmds| && Overlaps(region, Optimizer.RegionOf(q.cmds[inters[0]]));
    assert !Overlaps(q.cmds[0].args.region, Optimizer.RegionOf(q.cmds[1]));
    assert !Optimizer.AnyOverlap(q.cmds[0].args.region, q.cmds, inters);
    assert Optimizer.MergeBackward(q, 0, 0, key, region, 12, 102) == Optimizer.MergeResult(false, q.(curCommand := 3));
    assert Optimizer.Merge(q, 0, key, region, 12, 102) == Optimizer.MergeResult(false, q.(curCommand := 3));
  }

  /** The flush step of StaleSlotJoinsSegment, for any arena holding those commands. */
  lemma StaleSlotReplayed(r: Queue)
    requires r.cmds == StaleSlotQueued().cmds && r.curCommand == 4 && r.lastError == NoError
    requires r.curVertex <= |r.verts|
    ensures Dispatch.VisibleEvents(Dispatch.Flush(r, ZERO_STATE, false).events)
            == [Dispatch.DrawCall(0, 6), Dispatch.DrawCall(6, 6), Dispatch.DrawCall(500, 6), Dispatch.DrawCall(12, 102)]
  {
    var upload := [Dispatch.UploadVertices(r.verts[0..r.curVertex])];
    var replay := Dispatch.Replay(r.cmds, r.uniforms, 0, 4, 0).events;
    Dispatch.ReplayShowsCommands(r.cmds, r.uniforms, 0, 4, 0);
    Dispatch.VisibleEventsAppend(upload, replay);
    assert Dispatch.VisibleEvents(upload) == [];
    StaleSlotExpected();
  }

  /** The calls the commands of StaleSlotQueued stand for. */
  lemma StaleSlotExpected()
    ensures Dispatch.ExpectedAll(StaleSlotQueued().cmds, 0, 4, 0)
            == [Dispatch.DrawCall(0, 6), Dispatch.DrawCall(6, 6), Dispatch.DrawCall(500, 6), Dispatch.DrawCall(12, 102)]
  {
    var cmds := StaleSlotQueued().cmds;
    assert Dispatch.ExpectedAll(cmds, 0, 1, 0) == [Dispatch.DrawCall(0, 6)];
    assert Dispatch.ExpectedAll(cmds, 0, 2, 0) == [Dispatch.DrawCall(0, 6), Dispatch.DrawCall(6, 6)];
    assert Dispatch.ExpectedAll(cmds, 0, 3, 0) == [Dispatch.DrawCall(0, 6), Dispatch.DrawCall(6, 6), Dispatch.DrawCall(500, 6)];
  }

  /** The segment bases of `a` are at or below those of `b`. */
  predicate BasesBelow(a: State, b: State)
  {
    a.baseVertex <= b.baseVertex && a.baseUniform <= b.baseUniform && a.baseCommand <= b.baseCommand
  }

  class Context {
    const vertices: array<Vertex>
    const uniforms: array<Uniform>
    const commands: array<Command>
    /** Built-in pipelines by primitive type and blend mode; INVALID_ID when not yet made. */
    const pipelines: array<nat>
    const stateStack: array<State>
    const transformStack: array<Mat>
    const whiteImage: nat
    const nearestSampler: nat
    /** _sgp_default_proj(w, h) and the stroke thickness max(1/w, 1/h) of a viewport of
        size w x h, single-precision formulas supplied with the context. */
    const defaultProj: (int, int) -> Mat
    const thicknessOf: (int, int) -> real

    var curVertex: nat
    var curUniform: nat
    var curCommand: nat
    var curState: nat
    var curTransform: nat
    var state: State
    var lastError: Error

    /** Cursors within their arenas and stacks; the bases of the segments, from the outermost
        pushed state to the current one, never decrease and never pass the cursors; every draw
        in the command arena refers to no uniform or to a slot of the uniform arena. */
    ghost predicate Valid()
      reads this, commands, stateStack
    {
      && pipelines.Length == PIPELINE_CACHE_SIZE
      && stateStack.Length == MAX_STACK_DEPTH && transformStack.Length == MAX_STACK_DEPTH
      && curVertex <= vertices.Length && curUniform <= uniforms.Length && curCommand <= commands.Length
      && curState <= MAX_STACK_DEPTH && curTransform <= MAX_STACK_DEPTH
      && state.baseVertex <= curVertex && state.baseUniform <= curUniform && state.baseCommand <= curCommand
      && (forall i :: 0 <= i < curState ==> BasesBelow(stateStack[i], state))
      && (forall i, j :: 0 <= i <= j < curState ==> BasesBelow(stateStack[i], stateStack[j]))
      && DrawsReadable(commands[..], uniforms.Length)
    }

    /** The arenas, their cursors and the last error, as one value. */
    function Q(): Queue
      reads this, vertices, uniforms, commands
    {
      Queue(vertices[..], uniforms[..], commands[..], curVertex, curUniform, curCommand, lastError)
    }

    /** The arenas of the given capacities, zeroed, with no built-in pipeline made yet and both
        stacks empty. */
    constructor(numVertices: nat, numUniforms: nat, numCommands: nat, whiteImage: nat, nearestSampler: nat,
                defaultProj: (int, int) -> Mat, thicknessOf: (int, int) -> real)
      ensures Valid()
      ensures vertices.Length == numVertices && uniforms.Length == numUniforms && commands.Length == numCommands
      ensures forall j :: 0 <= j < numCommands ==> commands[j] == NoneCmd
      ensures forall j :: 0 <= j < PIPELINE_CACHE_SIZE ==> pipelines[j] == INVALID_ID
      ensures curVertex == 0 && curUniform == 0 && curCommand == 0 && curState == 0 && curTransform == 0
      ensures state == ZERO_STATE && lastError == NoError
      ensures this.whiteImage == whiteImage && this.nearestSampler == nearestSampler
      ensures this.defaultProj == defaultProj && this.thicknessOf == thicknessOf
    {
      vertices := new Vertex[numVertices](_ => Vertex(Vec2(0.0, 0.0), Vec2(0.0, 0.0), Color(0, 0, 0, 0)));
      uniforms := new Uniform[numUniforms](_ => ZERO_UNIFORM);
      commands := new Command[numCommands](_ => NoneCmd);
      pipelines := new nat[PIPELINE_CACHE_SIZE](_ => INVALID_ID);
      stateStack := new State[MAX_STACK_DEPTH](_ => ZERO_STATE);
      transformStack := new Mat[MAX_STACK_DEPTH](_ => IDENTITY);
      this.whiteImage := whiteImage;
      this.nearestSampler := nearestSampler;
      this.defaultProj := defaultProj;
      this.thicknessOf := thicknessOf;
      curVertex, curUniform, curCommand, curState, curTransform := 0, 0, 0, 0, 0;
      state := ZERO_STATE;
      lastError := NoError;
    }

    /** _sgp_next_vertices: claims `n` vertices at the cursor when they fit. */
    method NextVertices(n: nat) returns (ok: bool)
      requires Valid()
      modifies this
      ensures Valid()
      ensures ok <==> old(curVertex) + n <= vertices.Length
      ensures ok ==> curVertex == old(curVertex) + n && lastError == old(lastError)
      ensures !ok ==> curVertex == old(curVertex) && lastError == VerticesFull
      ensures curUniform == old(curUniform) && curCommand == old(curCommand)
      ensures state == old(state) && curState == old(curState) && curTransform == old(curTransform)
    {
      if curVertex + n <= vertices.Length {
        curVertex := curVertex + n;
        ok := true;
      } else {
        lastError := VerticesFull;
        ok := false;
      }
    }

    /** _sgp_prev_uniform: the last stored uniform, whatever the segment's base. */
    function PrevUniform(): (r: Option<nat>)
      reads this
      ensures r.Some? <==> curUniform > 0
      ensures r.Some? ==> r.value == curUniform - 1
    {
      if curUniform > 0 then Some(curUniform - 1) else None
    }

    /** _sgp_next_uniform: claims the next uniform slot when there is one. */
    method NextUniform() returns (slot: Option<nat>)
      requires Valid()
      modifies this
      ensures Valid()
      ensures slot.Some? <==> old(curUniform) < uniforms.Length
      ensures slot.Some? ==> slot.value == old(curUniform) && curUniform == old(curUniform) + 1 && lastError == old(lastError)
      ensures slot.None? ==> curUniform == old(curUniform) && lastError == UniformsFull
      ensures curVertex == old(curVertex) && curCommand == old(curCommand)
      ensures state == old(state) && curState == old(curState) && curTransform == old(curTransform)
    {
      if curUniform < uniforms.Length {
        slot := Some(curUniform);
        curUniform := curUniform + 1;
      } else {
        lastError := UniformsFull;
        slot := None;
      }
    }

    /** _sgp_prev_command(k): the k-th last command of the segment, if the segment has k. */
    function PrevCommand(k: nat): (r: Option<nat>)
      reads this
      ensures r.Some? <==> state.baseCommand + k <= curCommand
      ensures r.Some? ==> r.value == curCommand - k
    {
      if state.baseCommand + k <= curCommand then Some(curCommand - k) else None
    }

    /** _sgp_next_command: claims the next command slot when there is one. */
    method NextCommand() returns (slot: Option<nat>)
      requires curCommand <= commands.Length
      modifies this
      ensures curCommand <= commands.Length
      ensures slot.Some? <==> old(curCommand) < commands.Length
      ensures slot.Some? ==> slot.value == old(curCommand) && curCommand == old(curCommand) + 1 && lastError == old(lastError)
      ensures slot.None? ==> curCommand == old(curCommand) && lastError == CommandsFull
      ensures curVertex == old(curVertex) && curUniform == old(curUniform)
      ensures state == old(state) && curState == old(curState) && curTransform == old(curTransform)
    {
      if curCommand < commands.Length {
        slot := Some(curCommand);
        curCommand := curCommand + 1;
      } else {
        lastError := CommandsFull;
        slot := None;
      }
    }

    /** _sgp_merge_batch_command. */
    method MergeBatchCommand(key: Optimizer.DrawKey, region: Region, vi: nat, n: nat) returns (ok: bool)
      requires Valid() && Optimizer.MergeReady(Q(), state.baseCommand, vi, n)
      modifies this, vertices, commands
      ensures Optimizer.MergeResult(ok, Q()) == Optimizer.Merge(old(Q()), old(state).baseCommand, key, region, vi, n)
      ensures state == old(state) && curState == old(curState) && curTransform == old(curTransform)
    {
      ghost var q := Q();
      var s := Optimizer.ScanQueue(commands, uniforms, state.baseCommand, curCommand, key);
      Optimizer.ScanFindsCandidate(q.cmds, q.uniforms, state.baseCommand, curCommand, key);
      if s.candidate.None? {
        return false;
      }
      var c := s.candidate.value;
      Optimizer.DrawsDescMembers(q.cmds, c + 1, curCommand);
      var refused, overlapsNew := Optimizer.CheckOverlaps(commands, s.inters, region, commands[c].args.region);
      if refused {
        return false;
      }
      if !overlapsNew {
        ok := MergeForward(c, s.inters, region, vi, n);
      } else {
        ok := MergeBackward(c, key, region, vi, n);
      }
    }

    /** The forward branch of _sgp_merge_batch_command: the candidate `c` grows in place. */
    method MergeForward(c: nat, inters: seq<nat>, region: Region, vi: nat, n: nat) returns (ok: bool)
      requires Optimizer.MergeReady(Q(), state.baseCommand, vi, n)
      requires state.baseCommand <= c < curCommand && commands[c].Draw?
      requires forall k :: 0 <= k < |inters| ==> inters[k] < commands.Length
      requires forall k, l :: 0 <= k < l < |inters| ==> inters[k] > inters[l]
      modifies vertices, commands
      ensures Optimizer.MergeResult(ok, Q()) == Optimizer.MergeForward(old(Q()), state.baseCommand, c, inters, region, vi, n)
    {
      ghost var q := Q();
      var prev := commands[c].args;
      var prevEnd := prev.vertexIndex + prev.numVertices;
      var moving: int := curVertex - prevEnd;
      Optimizer.MergeForwardCases(q, state.baseCommand, c, inters, region, vi, n, prev, prevEnd, moving);
      var grown := Draw(Optimizer.Grown(prev, region, n));
      if |inters| == 0 {
        commands[c] := grown;
        assert commands[..] == q.cmds[c := grown];
        return true;
      }
      // not enough vertex room, or too many vertices to move (a negative count wraps around)
      if curVertex + n > vertices.Length || moving < 0 || moving > MAX_MOVE_VERTICES {
        return false;
      }
      ForwardMoves(prevEnd, vi, n);
      Optimizer.ShiftIntermediates(commands, inters, n);
      commands[c] := grown;
      assert commands[..] == Optimizer.Shifted(q.cmds, inters, n)[c := grown];
      return true;
    }

    /** The two vertex moves of a forward merge: the vertices after the candidate's move up
        by `n`, then the new vertices, now at `vi + n`, move down behind the candidate. */
    method ForwardMoves(prevEnd: nat, vi: nat, n: nat)
      requires prevEnd <= vi + n && vi + 2 * n <= vertices.Length
      modifies vertices
      ensures vertices[..] == Optimizer.ForwardVerts(old(vertices[..]), prevEnd, vi, n)
    {
      var moving := vi + n - prevEnd;
      ghost var s0 := vertices[..];
      MoveVertices(vertices, prevEnd + n, prevEnd, moving);
      ghost var s1 := vertices[..];
      MoveVertices(vertices, prevEnd, vi + n, n);
      assert vertices[..] == Moved(Moved(s0, prevEnd + n, prevEnd, moving), prevEnd, vi + n, n);
    }

    /** The two vertex moves of a backward merge: the new vertices move up by `pn`, then the
        candidate's `pn` vertices at `pvi` are copied in front of them. */
    method BackwardMoves(pvi: nat, pn: nat, vi: nat, n: nat)
      requires pvi + pn <= vertices.Length && vi + pn + n <= vertices.Length
      modifies vertices
      ensures vertices[..] == Optimizer.BackwardVerts(old(vertices[..]), pvi, pn, vi, n)
    {
      ghost var s0 := vertices[..];
      MoveVertices(vertices, vi + pn, vi, n);
      ghost var s1 := vertices[..];
      MoveVertices(vertices, vi, pvi, pn);
      ghost var s2 := vertices[..];
      assert s2 == Moved(Moved(s0, vi + pn, vi, n), vi, pvi, pn);
    }

    /** The backward branch of _sgp_merge_batch_command: the candidate `c` moves to a new
        command at the end. */
    method MergeBackward(c: nat, key: Optimizer.DrawKey, region: Region, vi: nat, n: nat) returns (ok: bool)
      requires Optimizer.MergeReady(Q(), state.baseCommand, vi, n)
      requires state.baseCommand <= c < curCommand && commands[c].Draw?
      modifies this, vertices, commands
      ensures Optimizer.MergeResult(ok, Q()) == Optimizer.MergeBackward(old(Q()), old(state).baseCommand, c, key, region, vi, n)
      ensures state == old(state) && curState == old(curState) && curTransform == old(curTransform)
    {
      ghost var q := Q();
      var prev := commands[c].args;
      var pn := prev.numVertices;
      var merged := DrawArgs(key.pip, key.textures, Union(prev.region, region), prev.uniformIndex, vi, n + pn);
      Optimizer.MergeBackwardCases(q, state.baseCommand, c, key, region, vi, n, prev, merged);
      var slot := NextCommand();
      if slot.None? {
        return false;
      }
      var k := slot.value;
      // not enough vertex room, too many vertices to move, or a candidate outside the
      // arena: the slot stays taken
      if curVertex + pn > vertices.Length || n > MAX_MOVE_VERTICES || prev.vertexIndex + pn > vertices.Length {
        return false;
      }
      ghost var r := Queue(Optimizer.BackwardVerts(q.verts, prev.vertexIndex, pn, vi, n), q.uniforms,
                           q.cmds[k := Draw(merged)][c := NoneCmd], q.curVertex + pn, q.curUniform, k + 1, q.lastError);
      Optimizer.MergeBackwardSucceeds(q, state.baseCommand, c, key, region, vi, n, prev, merged, r);
      BackwardMoves(prev.vertexIndex, pn, vi, n);
      curVertex := curVertex + pn;
      commands[k] := Draw(merged);
      commands[c] := NoneCmd;
      assert commands[..] == r.cmds;
      return true;
    }

    /** _sgp_lookup_pipeline over the pipeline cache, `created` being what the backend would
        make for the pair. */
    method LookupPipeline(prim: PrimitiveType, blend: BlendMode, created: nat) returns (pip: nat)
      requires pipelines.Length == PIPELINE_CACHE_SIZE
      modifies pipelines
      ensures Found(pip, pipelines[..]) == PipelineLookup(old(pipelines[..]), prim, blend, created)
    {
      var i := Tables.PipelineIndex(prim, blend);
      if pipelines[i] != INVALID_ID {
        return pipelines[i];
      }
      pip := created;
      if created != INVALID_ID {
        pipelines[i] := created;
      }
    }

    /** sgp_flush; `overflow` is the backend's answer to whether the vertex upload overflowed
        its buffer. */
    method Flush(overflow: bool) returns (events: seq<Dispatch.Event>)
      requires Valid() && curState > 0
      modifies this
      ensures Valid()
      ensures Dispatch.FlushResult(Q(), events) == Dispatch.Flush(old(Q()), old(state), overflow)
      ensures state == old(state) && curState == old(curState) && curTransform == old(curTransform)
    {
      var endCommand, endVertex := curCommand, curVertex;
      curVertex, curUniform, curCommand := state.baseVertex, state.baseUniform, state.baseCommand;
      if lastError != NoError || endCommand <= state.baseCommand {
        return [];
      }
      events := [Dispatch.UploadVertices(vertices[state.baseVertex..endVertex])];
      if overflow {
        lastError := VerticesOverflow;
        return;
      }
      var replayed := Dispatch.ReplayCommands(commands, uniforms, state.baseCommand, endCommand, state.baseVertex);
      events := events + replayed;
    }

    /** The state stack as a value. */
    function StateFrames(): Stacks.StateStack
      reads this, stateStack
      requires curState <= stateStack.Length
    {
      Stacks.StateStack(state, stateStack[..curState], lastError)
    }

    /** The transform stack as a value. */
    function TransformFrames(): Stacks.TransformStack
      reads this, transformStack
      requires curTransform <= transformStack.Length
    {
      Stacks.TransformStack(state, transformStack[..curTransform], lastError)
    }

    /** sgp_begin. */
    method Begin(w: int, h: int)
      requires Valid()
      modifies this, stateStack
      ensures Valid()
      ensures StateFrames() == Stacks.Begin(old(StateFrames()), w, h, defaultProj(w, h), thicknessOf(w, h),
                                            curVertex, curUniform, curCommand, whiteImage, nearestSampler)
      ensures curVertex == old(curVertex) && curUniform == old(curUniform) && curCommand == old(curCommand)
      ensures curTransform == old(curTransform)
    {
      if curState >= MAX_STACK_DEPTH {
        lastError := StateStackOverflow;
        return;
      }
      lastError := NoError;
      ghost var pushed := stateStack[..curState];
      stateStack[curState] := state;
      curState := curState + 1;
      assert stateStack[..curState] == pushed + [old(state)];
      state := DrawState.BeginState(state, w, h, defaultProj(w, h), thicknessOf(w, h),
                                    curVertex, curUniform, curCommand, whiteImage, nearestSampler);
    }

    /** sgp_end. */
    method End()
      requires Valid()
      modifies this
      ensures Valid()
      ensures StateFrames() == Stacks.End(old(StateFrames()))
      ensures curVertex == old(curVertex) && curUniform == old(curUniform) && curCommand == old(curCommand)
      ensures curTransform == old(curTransform)
    {
      if curState <= 0 {
        lastError := StateStackUnderflow;
        return;
      }
      curState := curState - 1;
      state := stateStack[curState];
    }

    /** sgp_push_transform. */
    method PushTransform()
      requires Valid() && curState > 0
      modifies this, transformStack
      ensures Valid()
      ensures TransformFrames() == Stacks.PushTransform(old(TransformFrames()))
      ensures curVertex == old(curVertex) && curUniform == old(curUniform) && curCommand == old(curCommand)
      ensures curState == old(curState)
    {
      if curTransform >= MAX_STACK_DEPTH {
        lastError := TransformStackOverflow;
        return;
      }
      ghost var pushed := transformStack[..curTransform];
      transformStack[curTransform] := state.transform;
      curTransform := curTransform + 1;
      assert transformStack[..curTransform] == pushed + [state.transform];
    }

    /** sgp_pop_transform. */
    method PopTransform()
      requires Valid() && curState > 0
      modifies this
      ensures Valid()
      ensures TransformFrames() == Stacks.PopTransform(old(TransformFrames()))
      ensures curVertex == old(curVertex) && curUniform == old(curUniform) && curCommand == old(curCommand)
      ensures curState == old(curState)
    {
      if curTransform <= 0 {
        lastError := TransformStackUnderflow;
        return;
      }
      curTransform := curTransform - 1;
      var m := transformStack[curTransform];
      state := state.(transform := m, mvp := MulProj(state.proj, m));
    }

    /** Takes the command slot a viewport or scissor command of kind `c` goes to: the last
        command of the segment when it has that kind, otherwise the next one. */
    method StateCommandSlot(c: Command) returns (slot: Option<nat>)
      requires Bounded(Q()) && state.baseCommand <= curCommand
      requires c.SetViewport? || c.SetScissor?
      modifies this
      ensures curCommand <= commands.Length && state == old(state)
      ensures slot.Some? ==> slot.value == curCommand - 1
      ensures var p := DrawState.PlaceStateCommand(old(Q()), state.baseCommand, c);
        && (slot.Some? <==> p.ok)
        && (slot.Some? ==> p.queue == Q().(cmds := Q().cmds[slot.value := c]))
        && (slot.None? ==> p.queue == Q())
      ensures curVertex == old(curVertex) && curUniform == old(curUniform)
      ensures curState == old(curState) && curTransform == old(curTransform)
    {
      var prev := PrevCommand(1);
      if prev.Some? && DrawState.SameKind(commands[prev.value], c) {
        return prev;
      }
      slot := NextCommand();
    }

    /** sgp_viewport. */
    method Viewport(r: IRect)
      requires Valid() && curState > 0
      modifies this, commands
      ensures Valid()
      ensures DrawState.Changed(Q(), state)
        == DrawState.Viewport(old(Q()), old(state), r, defaultProj(r.w, r.h), thicknessOf(r.w, r.h))
      ensures curState == old(curState) && curTransform == old(curTransform)
    {
      if state.viewport == r {
        return;
      }
      var slot := StateCommandSlot(SetViewport(r));
      if slot.None? {
        return;
      }
      commands[slot.value] := SetViewport(r);
      var scissor := state.scissor;
      // a set scissor keeps its place on the framebuffer relative to the viewport's origin
      if !DrawState.ScissorReset(scissor) {
        scissor := scissor.(x := scissor.x + (r.x - state.viewport.x), y := scissor.y + (r.y - state.viewport.y));
      }
      var proj := defaultProj(r.w, r.h);
      state := state.(viewport := r, scissor := scissor, proj := proj, mvp := MulProj(proj, state.transform),
                      thickness := thicknessOf(r.w, r.h));
    }

    /** sgp_scissor. */
    method Scissor(r: IRect)
      requires Valid() && curState > 0
      modifies this, commands
      ensures Valid()
      ensures DrawState.Changed(Q(), state) == DrawState.Scissor(old(Q()), old(state), r)
      ensures curState == old(curState) && curTransform == old(curTransform)
    {
      if state.scissor == r {
        return;
      }
      var rect := IRect(state.viewport.x + r.x, state.viewport.y + r.y, r.w, r.h);
      // the reset sentinel covers the whole frame
      if r.w < 0 && r.h < 0 {
        rect := IRect(0, 0, state.frameSize.w, state.frameSize.h);
      }
      var slot := StateCommandSlot(SetScissor(rect));
      if slot.None? {
        return;
      }
      commands[slot.value] := SetScissor(rect);
      state := state.(scissor := r);
    }

    /** sgp_set_image. */
    method SetImage(channel: nat, image: nat)
      requires Valid() && curState > 0 && channel < TEXTURE_SLOTS
      modifies this
      ensures Valid()
      ensures state == old(state).(textures := DrawState.SetImage(old(state).textures, channel, image))
      ensures Q() == old(Q()) && curState == old(curState) && curTransform == old(curTransform)
    {
      if state.textures.images[channel] == image {
        return;
      }
      var images := state.textures.images[channel := image];
      var count := DrawState.RecountLoop(images, channel, state.textures.count);
      state := state.(textures := state.textures.(images := images, count := count));
    }

    /** sgp_reset_image: slot 0 gets the white image back; any other slot is emptied, as
        sgp_unset_image does. */
    method ResetImage(channel: nat)
      requires Valid() && curState > 0 && channel < TEXTURE_SLOTS
      modifies this
      ensures Valid()
      ensures state == old(state).(textures := DrawState.SetImage(old(state).textures, channel,
                                                                   if channel == 0 then whiteImage else INVALID_ID))
      ensures Q() == old(Q()) && curState == old(curState) && curTransform == old(curTransform)
    {
      if channel == 0 {
        SetImage(channel, whiteImage);
      } else {
        SetImage(channel, INVALID_ID);
      }
    }

    /** sgp_set_blend_mode: the blend mode selects the built-in pipeline of later draws. */
    method SetBlendMode(blend: BlendMode)
      requires Valid()
      modifies this
      ensures Valid()
      ensures state == old(state).(blendMode := blend)
      ensures Q() == old(Q()) && curState == old(curState) && curTransform == old(curTransform)
    {
      state := state.(blendMode := blend);
    }

    /** sgp_set_pipeline: a custom pipeline, or INVALID_ID for the built-in ones
        (sgp_reset_pipeline); the uniform is zeroed either way. */
    method SetPipeline(pip: nat)
      requires Valid()
      modifies this
      ensures Valid()
      ensures state == old(state).(pipeline := pip, uniform := ZERO_UNIFORM)
      ensures Q() == old(Q()) && curState == old(curState) && curTransform == old(curTransform)
    {
      state := state.(pipeline := pip, uniform := ZERO_UNIFORM);
    }

    /** sgp_set_uniform, with the vertex-stage and fragment-stage bytes. */
    method SetUniform(vs: seq<bv8>, fs: seq<bv8>)
      requires Valid() && state.pipeline != INVALID_ID && |vs| + |fs| <= UNIFORM_BYTES
      modifies this
      ensures Valid()
      ensures state == old(state).(uniform := DrawState.SetUniform(old(state).uniform, vs, fs))
      ensures Q() == old(Q()) && curState == old(curState) && curTransform == old(curTransform)
    {
      state := state.(uniform := DrawState.SetUniform(state.uniform, vs, fs));
    }

    /** The tail every emitter shares: look up the built-in pipeline for the primitive and
        blend mode, and queue the draw of the `n` vertices written at `vi`. */
    method LookupAndQueue(prim: PrimitiveType, blend: BlendMode, created: nat, region: Region, vi: nat, n: nat)
      requires Valid() && Optimizer.MergeReady(Q(), state.baseCommand, vi, n) && state.baseVertex <= vi
      modifies this, vertices, uniforms, commands, pipelines
      ensures Valid()
      ensures Outcome(Q(), pipelines[..]) == Queued(old(Q()), old(pipelines[..]), old(state), prim, blend, created, region, vi, n)
      ensures state == old(state) && curState == old(curState) && curTransform == old(curTransform)
    {
      var pip := LookupPipeline(prim, blend, created);
      QueueDraw(pip, region, vi, n, prim);
    }

    /** sgp_clear: the clip square in the state color, drawn as triangles without blending. */
    method Clear(created: nat)
      requires Valid() && curState > 0
      modifies this, vertices, uniforms, commands, pipelines
      ensures Valid()
      ensures Outcome(Q(), pipelines[..])
        == Emitted(old(Q()), old(pipelines[..]), old(state), Triangles, BlendNone, created, ClearVertices(old(state).color), CLEAR_REGION)
      ensures state == old(state) && curState == old(curState) && curTransform == old(curTransform)
    {
      ghost var q0 := Q();
      var vi := curVertex;
      var ok := NextVertices(6);
      if !ok {
        return;
      }
      var none := Vec2(0.0, 0.0);
      PutQuad(vertices, vi, CLEAR_QUAD, [none, none, none, none], state.color);
      assert vertices[..] == Written(q0.verts, vi, ClearVertices(state.color));
      assert Q() == WrittenAt(q0, ClearVertices(state.color));
      LookupAndQueue(Triangles, BlendNone, created, CLEAR_REGION, vi, 6);
    }

    /** sgp_draw: the given vertices with their positions mapped by the current matrix. */
    method DrawVerts(prim: PrimitiveType, vs: seq<Vertex>, created: nat)
      requires Valid() && curState > 0
      modifies this, vertices, uniforms, commands, pipelines
      ensures Valid()
      ensures var out := DrawVertices(old(state).mvp, vs);
        Outcome(Q(), pipelines[..])
          == Emitted(old(Q()), old(pipelines[..]), old(state), prim, old(state).blendMode, created, out,
                     FoldRegion(EMPTY_REGION, Positions(out), Grow(prim, old(state).thickness)))
      ensures state == old(state) && curState == old(curState) && curTransform == old(curTransform)
    {
      if |vs| == 0 {
        return;
      }
      ghost var q0, c0 := Q(), pipelines[..];
      var vi := curVertex;
      var ok := NextVertices(|vs|);
      if !ok {
        return;
      }
      var region := FillDraw(vertices, vi, state.mvp, vs, Grow(prim, state.thickness));
      assert Q() == WrittenAt(q0, DrawVertices(state.mvp, vs));
      LookupAndQueue(prim, state.blendMode, created, region, vi, |vs|);
    }

    /** _sgp_draw_solid_pip: the points mapped by the current matrix, in the state color.
        sgp_draw_points, sgp_draw_lines_strip and sgp_draw_filled_triangles_strip pass their
        points through; DrawLines and DrawFilledTriangles flatten theirs. */
    method DrawSolid(prim: PrimitiveType, pts: seq<Vec2>, created: nat)
      requires Valid() && curState > 0
      modifies this, vertices, uniforms, commands, pipelines
      ensures Valid()
      ensures var out := SolidVertices(old(state).mvp, pts, old(state).color);
        Outcome(Q(), pipelines[..])
          == Emitted(old(Q()), old(pipelines[..]), old(state), prim, old(state).blendMode, created, out,
                     FoldRegion(EMPTY_REGION, Positions(out), Grow(prim, old(state).thickness)))
      ensures state == old(state) && curState == old(curState) && curTransform == old(curTransform)
    {
      if |pts| == 0 {
        return;
      }
      ghost var q0, c0 := Q(), pipelines[..];
      var vi := curVertex;
      var ok := NextVertices(|pts|);
      if !ok {
        return;
      }
      var region := FillSolid(vertices, vi, state.mvp, pts, state.color, Grow(prim, state.thickness));
      assert Q() == WrittenAt(q0, SolidVertices(state.mvp, pts, state.color));
      LookupAndQueue(prim, state.blendMode, created, region, vi, |pts|);
    }

    /** sgp_draw_lines: two points per line. */
    method DrawLines(lines: seq<Line>, created: nat)
      requires Valid() && curState > 0
      modifies this, vertices, uniforms, commands, pipelines
      ensures Valid()
      ensures var out := SolidVertices(old(state).mvp, LinePoints(lines), old(state).color);
        Outcome(Q(), pipelines[..])
          == Emitted(old(Q()), old(pipelines[..]), old(state), Lines, old(state).blendMode, created, out,
                     FoldRegion(EMPTY_REGION, Positions(out), old(state).thickness))
      ensures state == old(state) && curState == old(curState) && curTransform == old(curTransform)
    {
      DrawSolid(Lines, LinePoints(lines), created);
    }

    /** sgp_draw_filled_triangles: three points per triangle. */
    method DrawFilledTriangles(tris: seq<Triangle>, created: nat)
      requires Valid() && curState > 0
      modifies this, vertices, uniforms, commands, pipelines
      ensures Valid()
      ensures var out := SolidVertices(old(state).mvp, TrianglePoints(tris), old(state).color);
        Outcome(Q(), pipelines[..])
          == Emitted(old(Q()), old(pipelines[..]), old(state), Triangles, old(state).blendMode, created, out,
                     FoldRegion(EMPTY_REGION, Positions(out), 0.0))
      ensures state == old(state) && curState == old(curState) && curTransform == old(curTransform)
    {
      DrawSolid(Triangles, TrianglePoints(tris), created);
    }

    /** sgp_draw_filled_rects: six vertices per rectangle, the region folded over the mapped
        corners. */
    method DrawFilledRects(rects: seq<Rect>, created: nat)
      requires Valid() && curState > 0
      modifies this, vertices, uniforms, commands, pipelines
      ensures Valid()
      ensures Outcome(Q(), pipelines[..])
        == Emitted(old(Q()), old(pipelines[..]), old(state), Triangles, old(state).blendMode, created,
                   RectVertices(old(state).mvp, rects, old(state).color),
                   FoldRegion(EMPTY_REGION, RectCorners(old(state).mvp, rects), 0.0))
      ensures state == old(state) && curState == old(curState) && curTransform == old(curTransform)
    {
      if |rects| == 0 {
        return;
      }
      ghost var q0, c0 := Q(), pipelines[..];
      var vi := curVertex;
      var ok := NextVertices(6 * |rects|);
      if !ok {
        return;
      }
      var region := FillRects(vertices, vi, state.mvp, rects, state.color);
      assert Q() == WrittenAt(q0, RectVertices(state.mvp, rects, state.color));
      LookupAndQueue(Triangles, state.blendMode, created, region, vi, 6 * |rects|);
    }

    /** sgp_draw_textured_rects from the image bound to `channel`, whose size the backend
        reports as `size`. */
    method DrawTexturedRects(channel: nat, rects: seq<TexturedRect>, size: ISize, created: nat)
      requires Valid() && curState > 0 && channel < TEXTURE_SLOTS
      modifies this, vertices, uniforms, commands, pipelines
      ensures Valid()
      ensures Outcome(Q(), pipelines[..])
        == TexturedEmitted(old(Q()), old(pipelines[..]), old(state), channel, created, rects, size)
      ensures state == old(state) && curState == old(curState) && curTransform == old(curTransform)
    {
      if |rects| == 0 || state.textures.images[channel] == INVALID_ID {
        return;
      }
      ghost var q0, c0 := Q(), pipelines[..];
      var n := 6 * |rects|;
      var vi := curVertex;
      var ok := NextVertices(n);
      if !ok {
        return;
      }
      // the claimed vertices are not given back
      if size.w == 0 || size.h == 0 {
        return;
      }
      var iw, ih := 1.0 / (size.w as real), 1.0 / (size.h as real);
      var region := FillTexturedRects(vertices, vi, state.mvp, rects, iw, ih, state.color);
      assert Q() == WrittenAt(q0, TexturedVertices(state.mvp, rects, iw, ih, state.color));
      LookupAndQueue(Triangles, state.blendMode, created, region, vi, n);
    }

    /** _sgp_queue_draw, for `n` vertices just written at `vi`. */
    method QueueDraw(pip: nat, region: Region, vi: nat, n: nat, prim: PrimitiveType)
      requires Valid() && Optimizer.MergeReady(Q(), state.baseCommand, vi, n) && state.baseVertex <= vi
      modifies this, vertices, uniforms, commands
      ensures Valid()
      ensures Q() == Optimizer.QueueDraw(old(Q()), old(state), pip, region, vi, n, prim)
      ensures state == old(state) && curState == old(curState) && curTransform == old(curTransform)
    {
      ghost var q := Q();
      Optimizer.QueueDrawKeepsReadable(q, state, pip, region, vi, n, prim);
      // a custom pipeline overrides the built-in one and brings the state's uniform
      var p := pip;
      if state.pipeline != INVALID_ID {
        p := state.pipeline;
      }
      if p == INVALID_ID || OffScreen(region) {
        curVertex := curVertex - n;
        return;
      }
      if !IsStrip(prim) {
        var merged := MergeBatchCommand(Optimizer.DrawKey(p, state.textures, Optimizer.EffectiveUniform(state)), region, vi, n);
        if merged {
          return;
        }
      }
      AppendDraw(p, region, vi, n);
    }

    /** The tail of _sgp_queue_draw when no merge happened. */
    method AppendDraw(p: nat, region: Region, vi: nat, n: nat)
      requires curVertex <= vertices.Length && curUniform <= uniforms.Length && curCommand <= commands.Length && n <= curVertex
      modifies this, uniforms, commands
      ensures Q() == Optimizer.AppendDraw(old(Q()), old(state), p, region, vi, n)
      ensures state == old(state) && curState == old(curState) && curTransform == old(curTransform)
    {
      var uniformIndex := IMPOSSIBLE_ID;
      if state.pipeline != INVALID_ID {
        // reuse the last stored uniform when it has the same contents
        var prevUniform := PrevUniform();
        var reuse := prevUniform.Some? && uniforms[prevUniform.value] == state.uniform;
        if !reuse {
          if curUniform >= uniforms.Length {
            lastError := UniformsFull;
            curVertex := curVertex - n;
            return;
          }
          uniforms[curUniform] := state.uniform;
          curUniform := curUniform + 1;
        }
        uniformIndex := curUniform - 1;
      }
      if curCommand >= commands.Length {
        lastError := CommandsFull;
        curVertex := curVertex - n;
        return;
      }
      commands[curCommand] := Draw(DrawArgs(p, state.textures, region, uniformIndex, vi, n));
      curCommand := curCommand + 1;
    }
  }
}
