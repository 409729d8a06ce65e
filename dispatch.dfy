/** sgp_flush: replaying the command queue of the current segment as calls into the graphics
    backend, skipping every pipeline, binding and uniform call that would not change anything. */
module Dispatch {
  import opened Types
  import opened Arenas

  datatype Stage = VertexStage | FragmentStage

  /** A call into the graphics backend. */
  datatype Event =
    | UploadVertices(vertices: seq<Vertex>)
    | ApplyViewport(viewport: IRect)
    | ApplyScissor(scissor: IRect)
    | ApplyPipeline(pip: nat)
    | ApplyBindings(images: seq<nat>, samplers: seq<nat>)
    | ApplyUniforms(stage: Stage, bytes: seq<bv8>)
    | DrawCall(first: int, count: nat)

  /** What the backend last received: the pipeline, the uniform index, the image id per slot,
      and the image and sampler ids held in the bindings record. */
  datatype Tracker = Tracker(pip: nat, uniformIndex: nat, images: seq<nat>, bindImages: seq<nat>, bindSamplers: seq<nat>)
  type Trackers = t: Tracker | |t.images| == TEXTURE_SLOTS && |t.bindImages| == TEXTURE_SLOTS && |t.bindSamplers| == TEXTURE_SLOTS
    witness Tracker(0, 0, [0, 0, 0, 0], [0, 0, 0, 0], [0, 0, 0, 0])

  /** Nothing applied yet: impossible ids, and a zeroed bindings record. */
  const INITIAL_TRACKER: Trackers := Tracker(IMPOSSIBLE_ID, IMPOSSIBLE_ID,
    [IMPOSSIBLE_ID, IMPOSSIBLE_ID, IMPOSSIBLE_ID, IMPOSSIBLE_ID], [0, 0, 0, 0], [0, 0, 0, 0])

  /** The image a draw binds in slot `j`: none beyond the texture count. */
  function SlotImage(tex: Textures, j: nat): nat
    requires j < TEXTURE_SLOTS
  {
    if j < tex.count then tex.images[j] else INVALID_ID
  }

  /** The sampler a draw binds in slot `j`: only with an image in that slot. */
  function SlotSampler(tex: Textures, j: nat): nat
    requires j < TEXTURE_SLOTS
  {
    if j < tex.count && tex.images[j] != INVALID_ID then tex.samplers[j] else INVALID_ID
  }

  /** Some slot's image differs from what was last bound. */
  predicate ImagesChanged(t: Trackers, tex: Textures)
  {
    exists j :: 0 <= j < TEXTURE_SLOTS && t.images[j] != SlotImage(tex, j)
  }

  /** The bindings loop: a slot whose image changed takes the new image and its sampler;
      the other slots keep what the bindings record held. */
  function Rebind(t: Trackers, tex: Textures): Trackers
  {
    t.(images := seq(TEXTURE_SLOTS, j requires 0 <= j < TEXTURE_SLOTS => SlotImage(tex, j)),
       bindImages := seq(TEXTURE_SLOTS, j requires 0 <= j < TEXTURE_SLOTS =>
         if t.images[j] != SlotImage(tex, j) then SlotImage(tex, j) else t.bindImages[j]),
       bindSamplers := seq(TEXTURE_SLOTS, j requires 0 <= j < TEXTURE_SLOTS =>
         if t.images[j] != SlotImage(tex, j) then SlotSampler(tex, j) else t.bindSamplers[j]))
  }

  /** The vertex-stage bytes then the fragment-stage bytes of a uniform, each only when non-empty. */
  function UniformEvents(u: Uniform): seq<Event>
  {
    (if u.vsSize > 0 then [ApplyUniforms(VertexStage, u.data[..u.vsSize])] else []) +
    (if u.fsSize > 0 then [ApplyUniforms(FragmentStage, u.data[u.vsSize..u.vsSize + u.fsSize])] else [])
  }

  datatype StepResult = StepResult(tracker: Trackers, events: seq<Event>)

  predicate IndexReadable(i: nat, numUniforms: nat)
  {
    i == IMPOSSIBLE_ID || i < numUniforms
  }

  predicate HasPipelineEvent(es: seq<Event>) { exists e :: e in es && e.ApplyPipeline? }
  predicate HasBindingsEvent(es: seq<Event>) { exists e :: e in es && e.ApplyBindings? }
  predicate HasUniformsEvent(es: seq<Event>) { exists e :: e in es && e.ApplyUniforms? }

  /** Replaying one non-empty draw. A pipeline change applies the pipeline, forgets the
      uniform index and forces the bindings; a changed image also forces the bindings;
      applied bindings, or a changed uniform index, apply the uniform if the draw has one. */
  function DrawStep(t: Trackers, a: DrawArgs, uniforms: seq<Uniform>, baseVertex: nat): (r: StepResult)
    requires IndexReadable(a.uniformIndex, |uniforms|)
    ensures |r.events| > 0 && r.events[|r.events| - 1] == DrawCall(a.vertexIndex - baseVertex, a.numVertices)
    ensures r.tracker.pip == a.pip && r.tracker.uniformIndex == a.uniformIndex
    ensures forall j :: 0 <= j < TEXTURE_SLOTS ==> r.tracker.images[j] == SlotImage(a.textures, j)
  {
    var pipChanged := a.pip != t.pip;
    var t1 := if pipChanged then t.(pip := a.pip, uniformIndex := IMPOSSIBLE_ID) else t;
    var applyBindings := pipChanged || ImagesChanged(t1, a.textures);
    var t2 := Rebind(t1, a.textures);
    var applyUniforms := applyBindings || t2.uniformIndex != a.uniformIndex;
    var t3 := t2.(uniformIndex := a.uniformIndex);
    var events :=
      (if pipChanged then [ApplyPipeline(a.pip)] else []) +
      (if applyBindings then [ApplyBindings(t2.bindImages, t2.bindSamplers)] else []) +
      (if applyUniforms && a.uniformIndex != IMPOSSIBLE_ID then UniformEvents(uniforms[a.uniformIndex]) else []) +
      [DrawCall(a.vertexIndex - baseVertex, a.numVertices)];
    StepResult(t3, events)
  }

  /** When the backend is told something: the pipeline only when it changes; the bindings
      when the pipeline or some slot's image changes; the uniform, when the draw has a
      non-empty one, whenever the bindings were applied or the uniform index changed. */
  lemma DrawStepRules(t: Trackers, a: DrawArgs, uniforms: seq<Uniform>, baseVertex: nat)
    requires IndexReadable(a.uniformIndex, |uniforms|)
    ensures var es := DrawStep(t, a, uniforms, baseVertex).events;
      && (HasPipelineEvent(es) <==> a.pip != t.pip)
      && (HasBindingsEvent(es) <==> a.pip != t.pip || ImagesChanged(t, a.textures))
      && (HasUniformsEvent(es) <==>
            a.uniformIndex != IMPOSSIBLE_ID &&
            (a.pip != t.pip || ImagesChanged(t, a.textures) || a.uniformIndex != t.uniformIndex) &&
            (uniforms[a.uniformIndex].vsSize > 0 || uniforms[a.uniformIndex].fsSize > 0))
      && (forall e :: e in es && e.ApplyUniforms? ==> e in UniformEvents(uniforms[a.uniformIndex]))
  {
    var es := DrawStep(t, a, uniforms, baseVertex).events;
    var p, b, u := DrawStepParts(t, a, uniforms, baseVertex);
    if a.uniformIndex != IMPOSSIBLE_ID {
      UniformEventsInvisible(uniforms, a.uniformIndex);
      var un := uniforms[a.uniformIndex];
      assert |UniformEvents(un)| > 0 <==> un.vsSize > 0 || un.fsSize > 0;
    }
    PartsRules(es, p, b, u, DrawCall(a.vertexIndex - baseVertex, a.numVertices));
  }

  /** Events made of pipeline, bindings and uniform parts and a draw call show each kind
      exactly when its part is non-empty. */
  lemma PartsRules(es: seq<Event>, p: seq<Event>, b: seq<Event>, u: seq<Event>, dc: Event)
    requires es == p + b + u + [dc] && dc.DrawCall?
    requires forall e :: e in p ==> e.ApplyPipeline?
    requires forall e :: e in b ==> e.ApplyBindings?
    requires forall e :: e in u ==> e.ApplyUniforms?
    ensures HasPipelineEvent(es) <==> |p| > 0
    ensures HasBindingsEvent(es) <==> |b| > 0
    ensures HasUniformsEvent(es) <==> |u| > 0
    ensures forall e :: e in es && e.ApplyUniforms? ==> e in u
  {
    assert forall e :: e in es <==> e in p || e in b || e in u || e == dc;
    if |p| > 0 {
      assert p[0] in es;
    }
    if |b| > 0 {
      assert b[0] in es;
    }
    if |u| > 0 {
      assert u[0] in es;
    }
  }

  /** DrawStep's events in their four parts: the pipeline, the bindings, the uniform and
      the draw call, each with the condition that produces it. */
  lemma DrawStepParts(t: Trackers, a: DrawArgs, uniforms: seq<Uniform>, baseVertex: nat)
    returns (p: seq<Event>, b: seq<Event>, u: seq<Event>)
    requires IndexReadable(a.uniformIndex, |uniforms|)
    ensures DrawStep(t, a, uniforms, baseVertex).events == p + b + u + [DrawCall(a.vertexIndex - baseVertex, a.numVertices)]
    ensures p == if a.pip != t.pip then [ApplyPipeline(a.pip)] else []
    ensures |b| <= 1 && (forall e :: e in b ==> e.ApplyBindings?)
    ensures |b| == 1 <==> a.pip != t.pip || ImagesChanged(t, a.textures)
    ensures u == if a.uniformIndex != IMPOSSIBLE_ID &&
                    (a.pip != t.pip || ImagesChanged(t, a.textures) || a.uniformIndex != t.uniformIndex)
                 then UniformEvents(uniforms[a.uniformIndex]) else []
  {
    var pipChanged := a.pip != t.pip;
    var t1 := if pipChanged then t.(pip := a.pip, uniformIndex := IMPOSSIBLE_ID) else t;
    var t2 := Rebind(t1, a.textures);
    var applyBindings := pipChanged || ImagesChanged(t1, a.textures);
    var applyUniforms := applyBindings || t2.uniformIndex != a.uniformIndex;
    assert ImagesChanged(t1, a.textures) == ImagesChanged(t, a.textures);
    p := if pipChanged then [ApplyPipeline(a.pip)] else [];
    b := if applyBindings then [ApplyBindings(t2.bindImages, t2.bindSamplers)] else [];
    u := if applyUniforms && a.uniformIndex != IMPOSSIBLE_ID then UniformEvents(uniforms[a.uniformIndex]) else [];
  }

  /** Every non-empty draw of [lo, hi) refers to no uniform or to a stored one. */
  predicate UniformsReadable(cmds: seq<Command>, numUniforms: nat, lo: nat, hi: nat)
    requires hi <= |cmds|
  {
    forall j :: lo <= j < hi && cmds[j].Draw? && cmds[j].args.numVertices > 0 ==>
      IndexReadable(cmds[j].args.uniformIndex, numUniforms)
  }

  /** Replaying one command: viewport and scissor are applied as recorded, optimized-away
      commands and empty draws are skipped. */
  function CommandStep(t: Trackers, c: Command, uniforms: seq<Uniform>, baseVertex: nat): StepResult
    requires c.Draw? && c.args.numVertices > 0 ==> IndexReadable(c.args.uniformIndex, |uniforms|)
  {
    match c
    case NoneCmd => StepResult(t, [])
    case SetViewport(r) => StepResult(t, [ApplyViewport(r)])
    case SetScissor(r) => StepResult(t, [ApplyScissor(r)])
    case Draw(a) => if a.numVertices == 0 then StepResult(t, []) else DrawStep(t, a, uniforms, baseVertex)
  }

  /** Replaying the commands [lo, hi) in order, from the initial trackers. */
  function Replay(cmds: seq<Command>, uniforms: seq<Uniform>, lo: nat, hi: nat, baseVertex: nat): StepResult
    requires lo <= hi <= |cmds| && UniformsReadable(cmds, |uniforms|, lo, hi)
    decreases hi - lo
  {
    if hi == lo then StepResult(INITIAL_TRACKER, [])
    else
      var w := Replay(cmds, uniforms, lo, hi - 1, baseVertex);
      var s := CommandStep(w.tracker, cmds[hi - 1], uniforms, baseVertex);
      StepResult(s.tracker, w.events + s.events)
  }

  datatype FlushResult = FlushResult(queue: Queue, events: seq<Event>)

  /** sgp_flush. The cursors are rewound to the segment's bases in every case. Nothing is sent
      after an error or for an empty segment. Otherwise the segment's vertices are uploaded;
      when the backend reports that the vertex buffer overflowed (`overflow`) the error is
      recorded and no command is replayed. */
  function Flush(q: Queue, st: State, overflow: bool): (r: FlushResult)
    requires st.baseVertex <= q.curVertex <= |q.verts| && st.baseCommand <= q.curCommand <= |q.cmds|
    requires UniformsReadable(q.cmds, |q.uniforms|, st.baseCommand, q.curCommand)
    ensures r.queue.curVertex == st.baseVertex && r.queue.curUniform == st.baseUniform && r.queue.curCommand == st.baseCommand
    ensures r.queue.verts == q.verts && r.queue.uniforms == q.uniforms && r.queue.cmds == q.cmds
    ensures (q.lastError != NoError || q.curCommand == st.baseCommand) ==> r.events == [] && r.queue.lastError == q.lastError
    ensures q.lastError == NoError && q.curCommand > st.baseCommand ==>
      |r.events| > 0 && r.events[0] == UploadVertices(q.verts[st.baseVertex..q.curVertex]) &&
      (overflow <==> r.queue.lastError == VerticesOverflow) &&
      (overflow ==> |r.events| == 1)
  {
    var rewound := q.(curVertex := st.baseVertex, curUniform := st.baseUniform, curCommand := st.baseCommand);
    if q.lastError != NoError || q.curCommand <= st.baseCommand then FlushResult(rewound, [])
    else
      var upload := [UploadVertices(q.verts[st.baseVertex..q.curVertex])];
      if overflow then FlushResult(rewound.(lastError := VerticesOverflow), upload)
      else FlushResult(rewound, upload + Replay(q.cmds, q.uniforms, st.baseCommand, q.curCommand, st.baseVertex).events)
  }

  /** The calls that change what ends up on screen: viewport, scissor and draws. */
  predicate Visible(e: Event)
  {
    e.ApplyViewport? || e.ApplyScissor? || e.DrawCall?
  }

  function VisibleEvents(es: seq<Event>): (r: seq<Event>)
    ensures forall e :: e in r ==> e in es && Visible(e)
    decreases |es|
  {
    if |es| == 0 then [] else (if Visible(es[0]) then [es[0]] else []) + VisibleEvents(es[1..])
  }

  lemma {:induction false} VisibleEventsAppend(a: seq<Event>, b: seq<Event>)
    ensures VisibleEvents(a + b) == VisibleEvents(a) + VisibleEvents(b)
    decreases |a|
  {
    if |a| > 0 {
      assert (a + b)[0] == a[0];
      assert (a + b)[1..] == a[1..] + b;
      VisibleEventsAppend(a[1..], b);
    } else {
      assert a + b == b;
    }
  }

  /** What one command should show: its viewport or scissor, or its draw if non-empty,
      drawn from the vertex offset relative to the uploaded block. */
  function Expected(c: Command, baseVertex: nat): seq<Event>
  {
    match c
    case NoneCmd => []
    case SetViewport(r) => [ApplyViewport(r)]
    case SetScissor(r) => [ApplyScissor(r)]
    case Draw(a) => if a.numVertices == 0 then [] else [DrawCall(a.vertexIndex - baseVertex, a.numVertices)]
  }

  function ExpectedAll(cmds: seq<Command>, lo: nat, hi: nat, baseVertex: nat): seq<Event>
    requires lo <= hi <= |cmds|
    decreases hi - lo
  {
    if hi == lo then [] else ExpectedAll(cmds, lo, hi - 1, baseVertex) + Expected(cmds[hi - 1], baseVertex)
  }

  /** Skipping redundant calls never drops, adds or reorders a visible call: the viewports,
      scissors and draws sent are exactly those of the commands, in command order. */
  lemma {:induction false} ReplayShowsCommands(cmds: seq<Command>, uniforms: seq<Uniform>, lo: nat, hi: nat, baseVertex: nat)
    requires lo <= hi <= |cmds| && UniformsReadable(cmds, |uniforms|, lo, hi)
    ensures VisibleEvents(Replay(cmds, uniforms, lo, hi, baseVertex).events) == ExpectedAll(cmds, lo, hi, baseVertex)
    decreases hi - lo
  {
    if hi > lo {
      var w := Replay(cmds, uniforms, lo, hi - 1, baseVertex);
      var s := CommandStep(w.tracker, cmds[hi - 1], uniforms, baseVertex);
      ReplayShowsCommands(cmds, uniforms, lo, hi - 1, baseVertex);
      VisibleEventsAppend(w.events, s.events);
      CommandStepShows(w.tracker, cmds[hi - 1], uniforms, baseVertex);
    }
  }

  lemma CommandStepShows(t: Trackers, c: Command, uniforms: seq<Uniform>, baseVertex: nat)
    requires c.Draw? && c.args.numVertices > 0 ==> IndexReadable(c.args.uniformIndex, |uniforms|)
    ensures VisibleEvents(CommandStep(t, c, uniforms, baseVertex).events) == Expected(c, baseVertex)
  {
    if c.Draw? && c.args.numVertices > 0 {
      DrawStepShows(t, c.args, uniforms, baseVertex);
    } else {
      var es := CommandStep(t, c, uniforms, baseVertex).events;
      if |es| > 0 {
        assert es[1..] == [];
      }
    }
  }

  lemma DrawStepShows(t: Trackers, a: DrawArgs, uniforms: seq<Uniform>, baseVertex: nat)
    requires IndexReadable(a.uniformIndex, |uniforms|)
    ensures VisibleEvents(DrawStep(t, a, uniforms, baseVertex).events) == [DrawCall(a.vertexIndex - baseVertex, a.numVertices)]
  {
    var es := DrawStep(t, a, uniforms, baseVertex).events;
    var d := DrawCall(a.vertexIndex - baseVertex, a.numVertices);
    var front := es[..|es| - 1];
    assert es == front + [d];
    if a.uniformIndex != IMPOSSIBLE_ID {
      UniformEventsInvisible(uniforms, a.uniformIndex);
    }
    assert forall e :: e in front ==> !Visible(e);
    NoneVisible(front);
    VisibleEventsAppend(front, [d]);
    assert [d][1..] == [];
  }

  lemma UniformEventsInvisible(uniforms: seq<Uniform>, i: nat)
    requires i < |uniforms|
    ensures forall e :: e in UniformEvents(uniforms[i]) ==> e.ApplyUniforms?
  {
  }

  lemma {:induction false} NoneVisible(es: seq<Event>)
    requires forall e :: e in es ==> !Visible(e)
    ensures VisibleEvents(es) == []
    decreases |es|
  {
    if |es| > 0 {
      assert forall e :: e in es[1..] ==> e in es;
      NoneVisible(es[1..]);
    }
  }

  /** A second draw with the same pipeline, the same images per slot and the same uniform
      index as the one just replayed costs a single draw call. */
  lemma RepeatedDrawOnlyDraws(t: Trackers, a: DrawArgs, b: DrawArgs, uniforms: seq<Uniform>, baseVertex: nat)
    requires IndexReadable(a.uniformIndex, |uniforms|)
    requires b.pip == a.pip && b.uniformIndex == a.uniformIndex
    requires forall j :: 0 <= j < TEXTURE_SLOTS ==> SlotImage(b.textures, j) == SlotImage(a.textures, j)
    ensures var t1 := DrawStep(t, a, uniforms, baseVertex).tracker;
      DrawStep(t1, b, uniforms, baseVertex).events == [DrawCall(b.vertexIndex - baseVertex, b.numVertices)]
  {
    var t1 := DrawStep(t, a, uniforms, baseVertex).tracker;
    assert !ImagesChanged(t1, b.textures);
  }

  /** A draw that changes only the sampler of a slot, keeping its image, is replayed without
      new bindings: it is sampled with the sampler bound for the earlier draw. */
  lemma SamplerOnlyChangeNotBound(t: Trackers, a: DrawArgs, b: DrawArgs, uniforms: seq<Uniform>, baseVertex: nat)
    requires IndexReadable(a.uniformIndex, |uniforms|) && IndexReadable(b.uniformIndex, |uniforms|)
    requires b.pip == a.pip
    requires forall j :: 0 <= j < TEXTURE_SLOTS ==> SlotImage(b.textures, j) == SlotImage(a.textures, j)
    ensures var t1 := DrawStep(t, a, uniforms, baseVertex).tracker;
      var r := DrawStep(t1, b, uniforms, baseVertex);
      && !HasBindingsEvent(r.events)
      && r.tracker.bindSamplers == t1.bindSamplers
  {
    var t1 := DrawStep(t, a, uniforms, baseVertex).tracker;
    assert !ImagesChanged(t1, b.textures);
    DrawStepRules(t1, b, uniforms, baseVertex);
  }

  /** The bindings loop over the texture slots. */
  method BindSlots(t: Trackers, tex: Textures) returns (r: Trackers, changed: bool)
    ensures r == Rebind(t, tex) && changed == ImagesChanged(t, tex)
  {
    var images, bindImages, bindSamplers := t.images, t.bindImages, t.bindSamplers;
    changed := false;
    var j := 0;
    while j < TEXTURE_SLOTS
      invariant 0 <= j <= TEXTURE_SLOTS
      invariant |images| == |bindImages| == |bindSamplers| == TEXTURE_SLOTS
      invariant forall k :: 0 <= k < TEXTURE_SLOTS ==> images[k] == if k < j then SlotImage(tex, k) else t.images[k]
      invariant forall k :: 0 <= k < TEXTURE_SLOTS ==>
        bindImages[k] == (if k < j && t.images[k] != SlotImage(tex, k) then SlotImage(tex, k) else t.bindImages[k])
      invariant forall k :: 0 <= k < TEXTURE_SLOTS ==>
        bindSamplers[k] == (if k < j && t.images[k] != SlotImage(tex, k) then SlotSampler(tex, k) else t.bindSamplers[k])
      invariant changed <==> exists k :: 0 <= k < j && t.images[k] != SlotImage(tex, k)
    {
      var img, smp := INVALID_ID, INVALID_ID;
      if j < tex.count {
        img := tex.images[j];
        if img != INVALID_ID {
          smp := tex.samplers[j];
        }
      }
      if images[j] != img {
        images := images[j := img];
        bindImages := bindImages[j := img];
        bindSamplers := bindSamplers[j := smp];
        changed := true;
      }
      j := j + 1;
    }
    r := t.(images := images, bindImages := bindImages, bindSamplers := bindSamplers);
  }

  /** The uniform calls of the command loop: each stage's bytes when it has some. */
  method UniformCalls(u: Uniform) returns (events: seq<Event>)
    ensures events == UniformEvents(u)
  {
    events := [];
    if u.vsSize > 0 {
      events := events + [ApplyUniforms(VertexStage, u.data[..u.vsSize])];
    }
    if u.fsSize > 0 {
      events := events + [ApplyUniforms(FragmentStage, u.data[u.vsSize..u.vsSize + u.fsSize])];
    }
  }

  /** The body of the command loop for a non-empty draw. */
  method ReplayDraw(t: Trackers, a: DrawArgs, uniforms: array<Uniform>, baseVertex: nat)
    returns (r: Trackers, events: seq<Event>)
    requires IndexReadable(a.uniformIndex, uniforms.Length)
    ensures StepResult(r, events) == DrawStep(t, a, uniforms[..], baseVertex)
  {
    r := t;
    var pipEvents: seq<Event> := [];
    var applyBindings := false;
    var applyUniforms := false;
    if a.pip != r.pip {
      r := r.(pip := a.pip, uniformIndex := IMPOSSIBLE_ID);
      applyBindings := true;
      pipEvents := [ApplyPipeline(a.pip)];
    }
    var changed;
    r, changed := BindSlots(r, a.textures);
    applyBindings := applyBindings || changed;
    var bindEvents: seq<Event> := [];
    if applyBindings {
      bindEvents := [ApplyBindings(r.bindImages, r.bindSamplers)];
      applyUniforms := true;
    }
    if r.uniformIndex != a.uniformIndex {
      applyUniforms := true;
    }
    r := r.(uniformIndex := a.uniformIndex);
    var uniformEvents: seq<Event> := [];
    if applyUniforms && a.uniformIndex != IMPOSSIBLE_ID {
      assert uniforms[a.uniformIndex] == uniforms[..][a.uniformIndex];
      uniformEvents := UniformCalls(uniforms[a.uniformIndex]);
    }
    events := pipEvents + bindEvents + uniformEvents + [DrawCall(a.vertexIndex - baseVertex, a.numVertices)];
  }

  /** The command loop of sgp_flush. */
  method ReplayCommands(cmds: array<Command>, uniforms: array<Uniform>, lo: nat, hi: nat, baseVertex: nat)
    returns (events: seq<Event>)
    requires lo <= hi <= cmds.Length && UniformsReadable(cmds[..], uniforms.Length, lo, hi)
    ensures events == Replay(cmds[..], uniforms[..], lo, hi, baseVertex).events
  {
    var t: Trackers := INITIAL_TRACKER;
    events := [];
    var i := lo;
    while i < hi
      invariant lo <= i <= hi
      invariant StepResult(t, events) == Replay(cmds[..], uniforms[..], lo, i, baseVertex)
    {
      var cmd := cmds[i];
      match cmd {
        case SetViewport(r) =>
          events := events + [ApplyViewport(r)];
        case SetScissor(r) =>
          events := events + [ApplyScissor(r)];
        case Draw(a) =>
          if a.numVertices > 0 {
            var drawEvents;
            t, drawEvents := ReplayDraw(t, a, uniforms, baseVertex);
            events := events + drawEvents;
          }
        case NoneCmd =>
      }
      i := i + 1;
    }
  }
}
