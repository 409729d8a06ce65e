/** Operations on the draw state: uniforms, the texture slots, viewport and scissor, the
    reset done by sgp_begin, and where a viewport or scissor command goes in the queue. */
module DrawState {
  import opened Types
  import opened Arenas
  import Emit

  function Max0(x: int): nat
  {
    if x < 0 then 0 else x
  }

  /** `s` with [lo, hi) zeroed. */
  function Zeroed(s: seq<bv8>, lo: nat, hi: nat): (r: seq<bv8>)
    requires lo <= hi <= |s|
    ensures |r| == |s|
    ensures forall k :: 0 <= k < |s| ==> r[k] == if lo <= k < hi then 0 else s[k]
  {
    s[..lo] + seq(hi - lo, _ => 0 as bv8) + s[hi..]
  }

  /** The payload after copying the vertex-stage bytes to the front and the fragment-stage
      bytes right after them. */
  function Copied(data: seq<bv8>, vs: seq<bv8>, fs: seq<bv8>): (r: seq<bv8>)
    requires |data| == UNIFORM_BYTES && |vs| + |fs| <= UNIFORM_BYTES
    ensures |r| == UNIFORM_BYTES
    ensures forall k :: 0 <= k < UNIFORM_BYTES ==> r[k] == if k < |vs| + |fs| then (vs + fs)[k] else data[k]
  {
    vs + fs + data[|vs| + |fs|..]
  }

  /** sgp_set_uniform: the vertex-stage bytes go to the front of the payload and the
      fragment-stage bytes right after them. When the new size is smaller than the old one the
      bytes [size, old_size) of the whole record are zeroed; the record starts with the two
      16-bit sizes, so in the payload this zeroes [size-4, old_size-4), not [size, old_size). */
  function SetUniform(u: Uniform, vs: seq<bv8>, fs: seq<bv8>): (r: Uniform)
    requires |vs| + |fs| <= UNIFORM_BYTES
    ensures r.vsSize == |vs| && r.fsSize == |fs|
  {
    var size := |vs| + |fs|;
    var oldSize := u.vsSize + u.fsSize;
    var data := Copied(u.data, vs, fs);
    var data' := if size < oldSize then Zeroed(data, Max0(size - UNIFORM_HEADER_BYTES), Max0(oldSize - UNIFORM_HEADER_BYTES)) else data;
    UniformBlock(|vs|, |fs|, data')
  }

  /** When the uniform does not shrink, the payload holds exactly the new stage bytes and the
      bytes past them are left alone. */
  lemma SetUniformGrowing(u: Uniform, vs: seq<bv8>, fs: seq<bv8>)
    requires |vs| + |fs| <= UNIFORM_BYTES && u.vsSize + u.fsSize <= |vs| + |fs|
    ensures var r := SetUniform(u, vs, fs);
      && r.data[..r.vsSize] == vs
      && r.data[r.vsSize..r.vsSize + r.fsSize] == fs
      && r.data[|vs| + |fs|..] == u.data[|vs| + |fs|..]
  {
    var data := Copied(u.data, vs, fs);
    assert data[..|vs|] == vs;
    assert data[|vs|..|vs| + |fs|] == fs;
  }

  /** When the uniform shrinks, every payload byte is one of three things: zero in
      [size-4, old_size-4), the new stage bytes elsewhere below the new size, and the old byte
      above it. So the last four new bytes (fewer when the payload is shorter) are lost and four
      stale bytes past the new size survive. */
  lemma SetUniformShrinking(u: Uniform, vs: seq<bv8>, fs: seq<bv8>)
    requires |vs| + |fs| <= UNIFORM_BYTES && |vs| + |fs| < u.vsSize + u.fsSize
    ensures var r := SetUniform(u, vs, fs);
      var lo, hi := Max0(|vs| + |fs| - UNIFORM_HEADER_BYTES), Max0(u.vsSize + u.fsSize - UNIFORM_HEADER_BYTES);
      forall k :: 0 <= k < UNIFORM_BYTES ==>
        r.data[k] == if lo <= k < hi then 0 else if k < |vs| + |fs| then (vs + fs)[k] else u.data[k]
  {
  }

  /** Shrinking a uniform of 16 bytes to 8 bytes of 0xff: the last four new bytes, which are
      sent to the shader, arrive as zero, while the stale bytes [12, 16) are kept. */
  lemma ShrinkClobbersPayload()
    ensures var u := UniformBlock(16, 0, seq(32, k => if k < 16 then 0x11 as bv8 else 0));
      var vs := seq(8, _ => 0xff as bv8);
      var r := SetUniform(u, vs, []);
      && r.data[..8] != vs
      && r.data[4] == 0
      && r.data[12] == 0x11
  {
    var u: Uniform := UniformBlock(16, 0, seq(32, k => if k < 16 then 0x11 as bv8 else 0));
    var vs := seq(8, _ => 0xff as bv8);
    var data := Copied(u.data, vs, []);
    assert data[4] == 0xff && data[12] == u.data[12] == 0x11;
    var r := SetUniform(u, vs, []);
    assert r.data == Zeroed(data, 4, 12);
    assert r.data[4] == 0;
    assert r.data[..8][4] == r.data[4] != vs[4];
  }

  /** Setting the same stage data a second time stores it intact, whatever the first call
      zeroed: the second call does not shrink. */
  lemma SetUniformAgainStoresPayload(u: Uniform, vs: seq<bv8>, fs: seq<bv8>)
    requires |vs| + |fs| <= UNIFORM_BYTES
    ensures var r := SetUniform(SetUniform(u, vs, fs), vs, fs);
      r.data[..|vs|] == vs && r.data[|vs|..|vs| + |fs|] == fs
  {
    SetUniformGrowing(SetUniform(u, vs, fs), vs, fs);
  }

  /** A zeroed uniform, as sgp_set_pipeline and sgp_begin leave it, never shrinks, so the
      first sgp_set_uniform after them stores its stage bytes intact and zero past them. */
  lemma SetUniformAfterReset(vs: seq<bv8>, fs: seq<bv8>)
    requires |vs| + |fs| <= UNIFORM_BYTES
    ensures var r := SetUniform(ZERO_UNIFORM, vs, fs);
      && r.data[..|vs|] == vs && r.data[|vs|..|vs| + |fs|] == fs
      && forall k :: |vs| + |fs| <= k < UNIFORM_BYTES ==> r.data[k] == 0
  {
    SetUniformGrowing(ZERO_UNIFORM, vs, fs);
    var r := SetUniform(ZERO_UNIFORM, vs, fs);
    assert r.data == Copied(ZERO_BYTES, vs, fs);
    ZeroBytes();
    forall k | |vs| + |fs| <= k < UNIFORM_BYTES
      ensures r.data[k] == 0
    {
      assert r.data[k] == ZERO_BYTES[k];
    }
  }

  lemma ZeroBytes()
    ensures forall k :: 0 <= k < UNIFORM_BYTES ==> ZERO_BYTES[k] == 0
  {
    assert ZERO_BYTES == seq(UNIFORM_BYTES, _ => 0 as bv8);
  }

  /** The highest slot at or below `i` holding an image. */
  function HighestImage(images: seq<nat>, i: int): (r: Option<nat>)
    requires i < |images|
    ensures r.Some? ==> r.value <= i && images[r.value] != INVALID_ID
    ensures r.Some? ==> forall k :: r.value < k <= i ==> images[k] == INVALID_ID
    ensures r.None? ==> forall k :: 0 <= k <= i ==> images[k] == INVALID_ID
    decreases i + 1
  {
    if i < 0 then None
    else if images[i] != INVALID_ID then Some(i)
    else HighestImage(images, i - 1)
  }

  /** The texture count after an image was stored in `channel`: one past the highest slot
      holding an image, searched from max(channel, count-1) down; unchanged when none does. */
  function RecountTextures(images: seq<nat>, channel: nat, count: nat): nat
    requires |images| == TEXTURE_SLOTS && channel < TEXTURE_SLOTS && count <= TEXTURE_SLOTS
  {
    var start := if channel > count - 1 then channel else count - 1;
    match HighestImage(images, start)
    case Some(i) => i + 1
    case None => count
  }

  /** No slot at or past the count holds an image: the count covers every bound image. */
  predicate Tidy(tex: Textures)
  {
    forall k :: tex.count <= k < TEXTURE_SLOTS ==> tex.images[k] == INVALID_ID
  }

  /** sgp_set_image on the texture set: storing the image id already there changes nothing. */
  function SetImage(tex: Textures, channel: nat, image: nat): (r: Textures)
    requires channel < TEXTURE_SLOTS
  {
    if tex.images[channel] == image then tex
    else
      var images := tex.images[channel := image];
      tex.(images := images, count := RecountTextures(images, channel, tex.count))
  }

  /** Setting the image already in the slot changes nothing. Otherwise the slot holds the new
      image, no other slot or sampler changes, and the count is one past the highest slot
      holding an image (it covers every bound image and ends at one), or stays as it was when
      no slot holds an image. */
  lemma SetImageCounts(tex: Textures, channel: nat, image: nat)
    requires channel < TEXTURE_SLOTS && Tidy(tex)
    ensures var r := SetImage(tex, channel, image);
      && r.images == tex.images[channel := image] && r.samplers == tex.samplers
      && Tidy(r)
      && (image != INVALID_ID ==> channel < r.count)
      && (r.count == tex.count || (0 < r.count && r.images[r.count - 1] != INVALID_ID))
      && (forall k :: r.count <= k < tex.count ==> r.images[k] == INVALID_ID)
      && ((forall k :: 0 <= k < TEXTURE_SLOTS ==> r.images[k] == INVALID_ID) ==> r.count == tex.count)
      && (tex.images[channel] == image ==> r == tex)
      && (tex.images[channel] != image && (exists k :: 0 <= k < TEXTURE_SLOTS && r.images[k] != INVALID_ID) ==>
            0 < r.count <= TEXTURE_SLOTS && r.images[r.count - 1] != INVALID_ID)
  {
    var r := SetImage(tex, channel, image);
    if tex.images[channel] != image {
      var images := tex.images[channel := image];
      var start := if channel > tex.count - 1 then channel else tex.count - 1;
      var h := HighestImage(images, start);
      assert images[channel] == image;
      if h.None? {
        assert forall k :: 0 <= k <= start ==> images[k] == INVALID_ID;
      } else if image != INVALID_ID {
        assert channel <= h.value;
      }
    }
  }

  /** The search loop of sgp_set_image. */
  method RecountLoop(images: seq<nat>, channel: nat, count: nat) returns (newCount: nat)
    requires |images| == TEXTURE_SLOTS && channel < TEXTURE_SLOTS && count <= TEXTURE_SLOTS
    ensures newCount == RecountTextures(images, channel, count)
  {
    newCount := count;
    var i: int := if channel > count - 1 then channel else count - 1;
    while i >= 0
      invariant -1 <= i < TEXTURE_SLOTS
      invariant HighestImage(images, i) == HighestImage(images, if channel > count - 1 then channel else count - 1)
      decreases i + 1
    {
      if images[i] != INVALID_ID {
        newCount := i + 1;
        return;
      }
      i := i - 1;
    }
  }

  /** The reset sentinel of the scissor: negative width and height mean "whole framebuffer". */
  predicate ScissorReset(s: IRect)
  {
    s.w < 0 && s.h < 0
  }

  /** The scissor in framebuffer coordinates: the state keeps it relative to the viewport. */
  function ScreenScissor(st: State): IRect
  {
    if ScissorReset(st.scissor) then IRect(0, 0, st.frameSize.w, st.frameSize.h)
    else IRect(st.viewport.x + st.scissor.x, st.viewport.y + st.scissor.y, st.scissor.w, st.scissor.h)
  }

  /** sgp_viewport on the state: the viewport, its projection and stroke thickness change, and
      a set scissor is moved by the viewport's offset. */
  function ViewportState(st: State, r: IRect, proj: Mat, mvp: Mat, thickness: real): State
  {
    var scissor := if ScissorReset(st.scissor) then st.scissor
      else st.scissor.(x := st.scissor.x + (r.x - st.viewport.x), y := st.scissor.y + (r.y - st.viewport.y));
    st.(viewport := r, scissor := scissor, proj := proj, mvp := mvp, thickness := thickness)
  }

  /** sgp_viewport places no scissor command, so the scissor in force on the framebuffer does
      not move. Moving the viewport by (dx, dy) moves the scissor the state keeps, relative to
      the viewport, by (dx, dy), so the framebuffer rectangle it now stands for (the one a
      scissor command for it would record) is moved by (2dx, 2dy); a reset scissor stays reset
      and covers the frame. */
  lemma ViewportShiftsScissor(st: State, r: IRect, proj: Mat, mvp: Mat, thickness: real)
    ensures var st' := ViewportState(st, r, proj, mvp, thickness);
      var dx, dy := r.x - st.viewport.x, r.y - st.viewport.y;
      && st'.viewport == r && st'.frameSize == st.frameSize
      && (ScissorReset(st.scissor) ==> st'.scissor == st.scissor && ScreenScissor(st') == ScreenScissor(st))
      && (!ScissorReset(st.scissor) ==>
            && st'.scissor == IRect(st.scissor.x + dx, st.scissor.y + dy, st.scissor.w, st.scissor.h)
            && ScreenScissor(st') == IRect(ScreenScissor(st).x + 2 * dx, ScreenScissor(st).y + 2 * dy, st.scissor.w, st.scissor.h))
  {
  }

  /** The rectangle a scissor command records: the framebuffer rectangle of the new scissor. */
  function ScissorCommandRect(st: State, r: IRect): (rect: IRect)
    ensures rect == ScreenScissor(st.(scissor := r))
  {
    if ScissorReset(r) then IRect(0, 0, st.frameSize.w, st.frameSize.h)
    else IRect(st.viewport.x + r.x, st.viewport.y + r.y, r.w, r.h)
  }

  predicate SameKind(a: Command, b: Command)
  {
    (a.SetViewport? && b.SetViewport?) || (a.SetScissor? && b.SetScissor?)
  }

  datatype Placed = Placed(queue: Queue, ok: bool)

  /** Where sgp_viewport and sgp_scissor put their command: over the last command of the
      segment when it is of the same kind, otherwise in a new slot. */
  function PlaceStateCommand(q: Queue, base: nat, c: Command): (r: Placed)
    requires Bounded(q) && base <= q.curCommand
    requires c.SetViewport? || c.SetScissor?
    ensures Bounded(r.queue) && |r.queue.cmds| == |q.cmds|
    ensures r.queue.verts == q.verts && r.queue.uniforms == q.uniforms
    ensures r.queue.curVertex == q.curVertex && r.queue.curUniform == q.curUniform
    ensures r.ok <==> q.curCommand < |q.cmds| || (base < q.curCommand && SameKind(q.cmds[q.curCommand - 1], c))
    ensures !r.ok ==> r.queue == q.(lastError := CommandsFull)
    ensures r.ok ==> && base < r.queue.curCommand && q.curCommand <= r.queue.curCommand <= q.curCommand + 1
                     && r.queue.cmds[r.queue.curCommand - 1] == c
                     && r.queue.cmds[..r.queue.curCommand - 1] == q.cmds[..r.queue.curCommand - 1]
                     && r.queue.lastError == q.lastError
  {
    if q.curCommand - base >= 1 && SameKind(q.cmds[q.curCommand - 1], c) then
      Placed(q.(cmds := q.cmds[q.curCommand - 1 := c]), true)
    else if q.curCommand < |q.cmds| then
      Placed(q.(cmds := q.cmds[q.curCommand := c], curCommand := q.curCommand + 1), true)
    else Placed(q.(lastError := CommandsFull), false)
  }

  /** Consecutive viewport (or scissor) changes leave one command: placing two in a row gives
      the queue that placing only the second would give. */
  lemma StateCommandsCoalesce(q: Queue, base: nat, c1: Command, c2: Command)
    requires Bounded(q) && base <= q.curCommand
    requires (c1.SetViewport? && c2.SetViewport?) || (c1.SetScissor? && c2.SetScissor?)
    ensures var q1 := PlaceStateCommand(q, base, c1).queue;
      PlaceStateCommand(q1, base, c2) == PlaceStateCommand(q, base, c2)
  {
    var p1 := PlaceStateCommand(q, base, c1);
    if p1.ok && !(q.curCommand - base >= 1 && SameKind(q.cmds[q.curCommand - 1], c1)) {
      assert p1.queue.cmds[q.curCommand := c2] == q.cmds[q.curCommand := c2];
    }
  }

  /** The arenas and the draw state after a call that may place a command. */
  datatype Changed = Changed(queue: Queue, state: State)

  /** sgp_viewport: nothing happens for the current viewport; otherwise its command is placed,
      and only when that succeeds does the state take the new viewport, with the projection
      `proj` and stroke `thickness` of its size. */
  function Viewport(q: Queue, st: State, r: IRect, proj: Mat, thickness: real): Changed
    requires Bounded(q) && st.baseCommand <= q.curCommand
  {
    if st.viewport == r then Changed(q, st)
    else
      var p := PlaceStateCommand(q, st.baseCommand, SetViewport(r));
      Changed(p.queue, if p.ok then ViewportState(st, r, proj, Emit.MulProj(proj, st.transform), thickness) else st)
  }

  /** The three outcomes of sgp_viewport: the same viewport changes nothing; a full command
      arena records COMMANDS_FULL and changes nothing else; otherwise the segment ends in the
      viewport command, the earlier commands are kept, at most one slot is taken, and the state
      holds the viewport and the product of its projection and the current transform. */
  lemma ViewportOutcome(q: Queue, st: State, r: IRect, proj: Mat, thickness: real)
    requires Bounded(q) && st.baseCommand <= q.curCommand
    ensures var c := Viewport(q, st, r, proj, thickness);
      && (st.viewport == r ==> c == Changed(q, st))
      && (st.viewport != r && q.curCommand == |q.cmds| && !(st.baseCommand < q.curCommand && q.cmds[q.curCommand - 1].SetViewport?) ==>
            c == Changed(q.(lastError := CommandsFull), st))
      && (st.viewport != r && (q.curCommand < |q.cmds| || (st.baseCommand < q.curCommand && q.cmds[q.curCommand - 1].SetViewport?)) ==>
            && st.baseCommand < c.queue.curCommand && q.curCommand <= c.queue.curCommand <= q.curCommand + 1
            && c.queue.cmds[c.queue.curCommand - 1] == SetViewport(r)
            && c.queue.cmds[..c.queue.curCommand - 1] == q.cmds[..c.queue.curCommand - 1]
            && c.queue.lastError == q.lastError
            && c.state.viewport == r && c.state.proj == proj && c.state.thickness == thickness
            && c.state.mvp == Emit.MulProj(proj, st.transform)
            && c.state.transform == st.transform && c.state.frameSize == st.frameSize
            && c.state.textures == st.textures && c.state.uniform == st.uniform && c.state.pipeline == st.pipeline
            && c.state.baseCommand == st.baseCommand)
  {
  }

  /** sgp_scissor: nothing happens for the current scissor; otherwise its framebuffer
      rectangle is placed as a command, and only when that succeeds does the state keep the new
      scissor, relative to the viewport. */
  function Scissor(q: Queue, st: State, r: IRect): Changed
    requires Bounded(q) && st.baseCommand <= q.curCommand
  {
    if st.scissor == r then Changed(q, st)
    else
      var p := PlaceStateCommand(q, st.baseCommand, SetScissor(ScissorCommandRect(st, r)));
      Changed(p.queue, if p.ok then st.(scissor := r) else st)
  }

  /** When sgp_scissor places its command, the command holds the framebuffer rectangle of the
      scissor the state now keeps; the reset sentinel records the whole frame. */
  lemma ScissorRecordsScreenRect(q: Queue, st: State, r: IRect)
    requires Bounded(q) && st.baseCommand <= q.curCommand
    requires st.scissor != r && (q.curCommand < |q.cmds| || (st.baseCommand < q.curCommand && q.cmds[q.curCommand - 1].SetScissor?))
    ensures var c := Scissor(q, st, r);
      && st.baseCommand < c.queue.curCommand && q.curCommand <= c.queue.curCommand <= q.curCommand + 1
      && c.queue.cmds[c.queue.curCommand - 1] == SetScissor(ScreenScissor(c.state))
      && c.state == st.(scissor := r)
      && (ScissorReset(r) ==> ScreenScissor(c.state) == IRect(0, 0, st.frameSize.w, st.frameSize.h))
  {
  }

  /** The three outcomes of sgp_scissor: the same scissor changes nothing; a full command
      arena records COMMANDS_FULL and changes nothing else; otherwise the segment ends in the
      scissor command, the earlier commands are kept, at most one slot is taken, and the state
      keeps the new scissor and nothing else changes. */
  lemma ScissorOutcome(q: Queue, st: State, r: IRect)
    requires Bounded(q) && st.baseCommand <= q.curCommand
    ensures var c := Scissor(q, st, r);
      && (st.scissor == r ==> c == Changed(q, st))
      && (st.scissor != r && q.curCommand == |q.cmds| && !(st.baseCommand < q.curCommand && q.cmds[q.curCommand - 1].SetScissor?) ==>
            c == Changed(q.(lastError := CommandsFull), st))
      && (st.scissor != r && (q.curCommand < |q.cmds| || (st.baseCommand < q.curCommand && q.cmds[q.curCommand - 1].SetScissor?)) ==>
            && st.baseCommand < c.queue.curCommand && q.curCommand <= c.queue.curCommand <= q.curCommand + 1
            && c.queue.cmds[c.queue.curCommand - 1] == SetScissor(ScissorCommandRect(st, r))
            && c.queue.cmds[..c.queue.curCommand - 1] == q.cmds[..c.queue.curCommand - 1]
            && c.queue.lastError == q.lastError
            && c.state == st.(scissor := r))
  {
  }

  /** The textures of a new segment: the white image in slot 0, the nearest sampler everywhere. */
  function BeginTextures(whiteImage: nat, nearestSampler: nat): Textures
  {
    TextureSet(1, [whiteImage, INVALID_ID, INVALID_ID, INVALID_ID],
               [nearestSampler, nearestSampler, nearestSampler, nearestSampler])
  }

  /** The state sgp_begin starts a segment with. The custom pipeline is the one setting that
      is not reset: it carries over from the enclosing state. */
  function BeginState(st: State, w: int, h: int, proj: Mat, thickness: real,
                      curVertex: nat, curUniform: nat, curCommand: nat, whiteImage: nat, nearestSampler: nat): (r: State)
    ensures r.pipeline == st.pipeline
    ensures r.frameSize == ISize(w, h) && r.proj == proj && r.thickness == thickness
    ensures r.color == WHITE && r.uniform == ZERO_UNIFORM && r.blendMode == BlendNone
    ensures r.baseVertex == curVertex && r.baseUniform == curUniform && r.baseCommand == curCommand
    ensures r.viewport == IRect(0, 0, w, h) && ScissorReset(r.scissor) && ScreenScissor(r) == r.viewport
    ensures r.mvp == r.proj && r.transform == IDENTITY
    ensures r.textures.count == 1 && r.textures.images[0] == whiteImage
    ensures forall j :: 1 <= j < TEXTURE_SLOTS ==> r.textures.images[j] == INVALID_ID
    ensures forall j :: 0 <= j < TEXTURE_SLOTS ==> r.textures.samplers[j] == nearestSampler
  {
    State(ISize(w, h), IRect(0, 0, w, h), IRect(0, 0, -1, -1), proj, IDENTITY, proj, thickness, WHITE,
          BeginTextures(whiteImage, nearestSampler), ZERO_UNIFORM, BlendNone, st.pipeline, curVertex, curUniform, curCommand)
  }
}
