/** The small pure tables of sokol_gp: blend states per blend mode, error messages,
    and the index of a built-in pipeline in the pipeline cache. */
module Tables {
  import opened Types

  datatype BlendFactor = FactorZero | FactorOne | SrcAlpha | OneMinusSrcAlpha | DstColor | DstAlpha
  datatype BlendOp = OpAdd

  /** The fields of sg_blend_state that _sgp_blend_state sets. */
  datatype BlendState = BlendState(
    enabled: bool,
    srcFactorRgb: BlendFactor, dstFactorRgb: BlendFactor, opRgb: BlendOp,
    srcFactorAlpha: BlendFactor, dstFactorAlpha: BlendFactor, opAlpha: BlendOp)

  /** A color with real channels, used only to give blend states a meaning. */
  datatype Rgba = Rgba(r: real, g: real, b: real, a: real)

  /** Value of a blend factor for one color channel; `sc`/`dc` are that channel of source/destination. */
  function FactorValue(f: BlendFactor, sc: real, dc: real, src: Rgba, dst: Rgba): real
  {
    match f
    case FactorZero => 0.0
    case FactorOne => 1.0
    case SrcAlpha => src.a
    case OneMinusSrcAlpha => 1.0 - src.a
    case DstColor => dc
    case DstAlpha => dst.a
  }

  function Channel(s: BlendState, sc: real, dc: real, src: Rgba, dst: Rgba): real
  {
    sc * FactorValue(s.srcFactorRgb, sc, dc, src, dst) + dc * FactorValue(s.dstFactorRgb, sc, dc, src, dst)
  }

  /** What the fixed-function blender writes for a source fragment over a destination pixel. */
  function Blended(s: BlendState, src: Rgba, dst: Rgba): Rgba
  {
    if !s.enabled then src
    else Rgba(
      Channel(s, src.r, dst.r, src, dst),
      Channel(s, src.g, dst.g, src, dst),
      Channel(s, src.b, dst.b, src, dst),
      src.a * FactorValue(s.srcFactorAlpha, src.a, dst.a, src, dst)
        + dst.a * FactorValue(s.dstFactorAlpha, src.a, dst.a, src, dst))
  }

  /** The color equation documented beside sgp_blend_mode, for one channel of an enabled mode. */
  function DocumentedChannel(mode: BlendMode, sc: real, dc: real, sa: real): real
  {
    match mode
    case BlendNone => sc
    case Blend => sc * sa + dc * (1.0 - sa)
    case BlendPremultiplied => sc + dc * (1.0 - sa)
    case Add => sc * sa + dc
    case AddPremultiplied => sc + dc
    case Mod => sc * dc
    case Mul => sc * dc + dc * (1.0 - sa)
  }

  /** The alpha equation documented beside sgp_blend_mode. */
  function DocumentedAlpha(mode: BlendMode, sa: real, da: real): real
  {
    match mode
    case BlendNone => sa
    case Blend => sa + da * (1.0 - sa)
    case BlendPremultiplied => sa + da * (1.0 - sa)
    case Add => da
    case AddPremultiplied => da
    case Mod => da
    case Mul => sa * da + da * (1.0 - sa)
  }

  /** The blend equations documented beside sgp_blend_mode (NONE writes the source unchanged). */
  function Documented(mode: BlendMode, s: Rgba, d: Rgba): Rgba
  {
    if mode == BlendNone then s
    else Rgba(DocumentedChannel(mode, s.r, d.r, s.a), DocumentedChannel(mode, s.g, d.g, s.a),
              DocumentedChannel(mode, s.b, d.b, s.a), DocumentedAlpha(mode, s.a, d.a))
  }

  /** _sgp_blend_state: the blend state of a pipeline built for `mode`. */
  function BlendStateOf(mode: BlendMode): (r: BlendState)
    ensures r.enabled <==> mode != BlendNone
    ensures r.opRgb == OpAdd && r.opAlpha == OpAdd
    ensures !r.enabled ==>
      r.srcFactorRgb == FactorOne && r.dstFactorRgb == FactorZero &&
      r.srcFactorAlpha == FactorOne && r.dstFactorAlpha == FactorZero
  {
    match mode
    case BlendNone => BlendState(false, FactorOne, FactorZero, OpAdd, FactorOne, FactorZero, OpAdd)
    case Blend => BlendState(true, SrcAlpha, OneMinusSrcAlpha, OpAdd, FactorOne, OneMinusSrcAlpha, OpAdd)
    case BlendPremultiplied => BlendState(true, FactorOne, OneMinusSrcAlpha, OpAdd, FactorOne, OneMinusSrcAlpha, OpAdd)
    case Add => BlendState(true, SrcAlpha, FactorOne, OpAdd, FactorZero, FactorOne, OpAdd)
    case AddPremultiplied => BlendState(true, FactorOne, FactorOne, OpAdd, FactorZero, FactorOne, OpAdd)
    case Mod => BlendState(true, DstColor, FactorZero, OpAdd, FactorZero, FactorOne, OpAdd)
    case Mul => BlendState(true, DstColor, OneMinusSrcAlpha, OpAdd, DstAlpha, OneMinusSrcAlpha, OpAdd)
  }

  /** Every blend state realises the equation documented for its mode. */
  lemma BlendStateMeetsDocumentation(mode: BlendMode, s: Rgba, d: Rgba)
    ensures Blended(BlendStateOf(mode), s, d) == Documented(mode, s, d)
  {
    var st := BlendStateOf(mode);
    if st.enabled {
      ChannelMeetsDocumentation(mode, s.r, d.r, s, d);
      ChannelMeetsDocumentation(mode, s.g, d.g, s, d);
      ChannelMeetsDocumentation(mode, s.b, d.b, s, d);
      AlphaMeetsDocumentation(mode, s, d);
    }
  }

  lemma ChannelMeetsDocumentation(mode: BlendMode, sc: real, dc: real, s: Rgba, d: Rgba)
    requires mode != BlendNone
    ensures Channel(BlendStateOf(mode), sc, dc, s, d) == DocumentedChannel(mode, sc, dc, s.a)
  {
    match mode
    case Blend =>
    case BlendPremultiplied =>
    case Add =>
    case AddPremultiplied =>
    case Mod =>
    case Mul =>
  }

  lemma AlphaMeetsDocumentation(mode: BlendMode, s: Rgba, d: Rgba)
    requires mode != BlendNone
    ensures Blended(BlendStateOf(mode), s, d).a == DocumentedAlpha(mode, s.a, d.a)
  {
    match mode
    case Blend =>
    case BlendPremultiplied =>
    case Add =>
    case AddPremultiplied =>
    case Mod =>
    case Mul =>
  }

  /** Numeric value of an sgp_error. */
  function ErrorCode(e: Error): (c: nat)
    ensures c < 16
  {
    match e
    case NoError => 0
    case SokolInvalid => 1
    case VerticesFull => 2
    case UniformsFull => 3
    case CommandsFull => 4
    case VerticesOverflow => 5
    case TransformStackOverflow => 6
    case TransformStackUnderflow => 7
    case StateStackOverflow => 8
    case StateStackUnderflow => 9
    case AllocFailed => 10
    case MakeVertexBufferFailed => 11
    case MakeWhiteImageFailed => 12
    case MakeNearestSamplerFailed => 13
    case MakeCommonShaderFailed => 14
    case MakeCommonPipelineFailed => 15
  }

  /** The error an integer code denotes, if any. */
  function ErrorOfCode(code: int): (r: Option<Error>)
    ensures r.Some? <==> 0 <= code < 16
    ensures r.Some? ==> ErrorCode(r.value) == code
  {
    if code == 0 then Some(NoError)
    else if code == 1 then Some(SokolInvalid)
    else if code == 2 then Some(VerticesFull)
    else if code == 3 then Some(UniformsFull)
    else if code == 4 then Some(CommandsFull)
    else if code == 5 then Some(VerticesOverflow)
    else if code == 6 then Some(TransformStackOverflow)
    else if code == 7 then Some(TransformStackUnderflow)
    else if code == 8 then Some(StateStackOverflow)
    else if code == 9 then Some(StateStackUnderflow)
    else if code == 10 then Some(AllocFailed)
    else if code == 11 then Some(MakeVertexBufferFailed)
    else if code == 12 then Some(MakeWhiteImageFailed)
    else if code == 13 then Some(MakeNearestSamplerFailed)
    else if code == 14 then Some(MakeCommonShaderFailed)
    else if code == 15 then Some(MakeCommonPipelineFailed)
    else None
  }

  const INVALID_CODE_MESSAGE: string := "Invalid error code"

  function Message(e: Error): string
  {
    match e
    case NoError => "No error"
    case SokolInvalid => "Sokol is not initialized"
    case VerticesFull => "SGP vertices buffer is full"
    case UniformsFull => "SGP uniform buffer is full"
    case CommandsFull => "SGP command buffer is full"
    case VerticesOverflow => "SGP vertices buffer overflow"
    case TransformStackOverflow => "SGP transform stack overflow"
    case TransformStackUnderflow => "SGP transform stack underflow"
    case StateStackOverflow => "SGP state stack overflow"
    case StateStackUnderflow => "SGP state stack underflow"
    case AllocFailed => "SGP failed to allocate buffers"
    case MakeVertexBufferFailed => "SGP failed to create vertex buffer"
    case MakeWhiteImageFailed => "SGP failed to create white image"
    case MakeNearestSamplerFailed => "SGP failed to create nearest sampler"
    case MakeCommonShaderFailed => "SGP failed to create the common shader"
    case MakeCommonPipelineFailed => "SGP failed to create the common pipeline"
  }

  /** sgp_get_error_message: a known code gets its own message, any other integer the fallback. */
  function ErrorMessage(code: int): (m: string)
    ensures (0 <= code < 16) <==> m != INVALID_CODE_MESSAGE
  {
    match ErrorOfCode(code)
    case Some(e) => Message(e)
    case None => INVALID_CODE_MESSAGE
  }

  /** The code a message was made for, read off its length and one or two characters. */
  function CodeOfMessage(m: string): int
  {
    match |m|
    case 8 => 0
    case 24 => if m[1] == 'o' then 1 else 8
    case 27 => 2
    case 26 => if m[4] == 'u' then 3 else 4
    case 28 => if m[4] == 'v' then 5 else 6
    case 29 => 7
    case 25 => 9
    case 30 => 10
    case 34 => 11
    case 32 => 12
    case 36 => 13
    case 38 => 14
    case 40 => 15
    case _ => -1
  }

  lemma MessageDeterminesCode(e: Error)
    ensures CodeOfMessage(Message(e)) == ErrorCode(e)
  {
  }

  /** Distinct error codes are reported with distinct messages. */
  lemma ErrorMessagesDistinct(c1: int, c2: int)
    requires 0 <= c1 < 16 && 0 <= c2 < 16 && c1 != c2
    ensures ErrorMessage(c1) != ErrorMessage(c2)
  {
    var e1, e2 := ErrorOfCode(c1).value, ErrorOfCode(c2).value;
    MessageDeterminesCode(e1);
    MessageDeterminesCode(e2);
  }

  function PrimitiveOrdinal(p: PrimitiveType): (n: nat)
    ensures n < 6
  {
    match p
    case DefaultPrimitive => 0
    case Points => 1
    case Lines => 2
    case LineStrip => 3
    case Triangles => 4
    case TriangleStrip => 5
  }

  function BlendOrdinal(b: BlendMode): (n: nat)
    ensures n < 7
  {
    match b
    case BlendNone => 0
    case Blend => 1
    case BlendPremultiplied => 2
    case Add => 3
    case AddPremultiplied => 4
    case Mod => 5
    case Mul => 6
  }

  /** Slot of the built-in pipeline for (primitive, blend) in the pipeline cache. */
  function PipelineIndex(p: PrimitiveType, b: BlendMode): (i: nat)
    ensures i < PIPELINE_CACHE_SIZE
    ensures i / 7 == PrimitiveOrdinal(p) && i % 7 == BlendOrdinal(b)
  {
    PrimitiveOrdinal(p) * 7 + BlendOrdinal(b)
  }

  /** Different (primitive, blend) pairs never share a cache slot. */
  lemma PipelineIndexInjective(p1: PrimitiveType, b1: BlendMode, p2: PrimitiveType, b2: BlendMode)
    requires PipelineIndex(p1, b1) == PipelineIndex(p2, b2)
    ensures p1 == p2 && b1 == b2
  {
    assert PrimitiveOrdinal(p1) == PrimitiveOrdinal(p2);
    assert BlendOrdinal(b1) == BlendOrdinal(b2);
  }
}
