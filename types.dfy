/** Data model of the sokol_gp context: configuration constants, error codes, the
    value records stored in the vertex, uniform and command arenas, and the draw state. */
module Types {

  /** Number of commands the batch optimizer looks back at (SGP_BATCH_OPTIMIZER_DEPTH). */
  const BATCH_OPTIMIZER_DEPTH: nat := 8
  /** Largest vertex block a merge may relocate (_SGP_MAX_MOVE_VERTICES). */
  const MAX_MOVE_VERTICES: nat := 96
  /** Depth of the state stack and of the transform stack (_SGP_MAX_STACK_DEPTH). */
  const MAX_STACK_DEPTH: nat := 64
  /** Texture slots per draw (SGP_TEXTURE_SLOTS). */
  const TEXTURE_SLOTS: nat := 4
  /** Uniform payload: SGP_UNIFORM_CONTENT_SLOTS floats of 4 bytes. */
  const UNIFORM_BYTES: nat := 32
  /** Byte offset of the payload inside a uniform record: two 16-bit size fields precede it. */
  const UNIFORM_HEADER_BYTES: nat := 4
  /** Resource id meaning "no resource" (SG_INVALID_ID). */
  const INVALID_ID: nat := 0
  /** Sentinel id that no resource has (_SGP_IMPOSSIBLE_ID). */
  const IMPOSSIBLE_ID: nat := 0xffff_ffff
  /** Number of primitive types times number of blend modes: size of the pipeline cache. */
  const PIPELINE_CACHE_SIZE: nat := 42
  /** Largest finite single-precision float, the seed of every bounding-region fold. */
  const FLT_MAX: real := 340282346638528859811704183484516925440.0

  const ZERO_BYTES: seq<bv8> := [
    0, 0, 0, 0, 0, 0, 0, 0, 0, 0, 0, 0, 0, 0, 0, 0,
    0, 0, 0, 0, 0, 0, 0, 0, 0, 0, 0, 0, 0, 0, 0, 0]

  datatype Option<T> = None | Some(value: T)

  /** sgp_error, in declaration order. */
  datatype Error =
    | NoError
    | SokolInvalid
    | VerticesFull
    | UniformsFull
    | CommandsFull
    | VerticesOverflow
    | TransformStackOverflow
    | TransformStackUnderflow
    | StateStackOverflow
    | StateStackUnderflow
    | AllocFailed
    | MakeVertexBufferFailed
    | MakeWhiteImageFailed
    | MakeNearestSamplerFailed
    | MakeCommonShaderFailed
    | MakeCommonPipelineFailed

  /** sg_primitive_type, in declaration order (DefaultPrimitive is value 0). */
  datatype PrimitiveType = DefaultPrimitive | Points | Lines | LineStrip | Triangles | TriangleStrip

  /** sgp_blend_mode, in declaration order. */
  datatype BlendMode = BlendNone | Blend | BlendPremultiplied | Add | AddPremultiplied | Mod | Mul

  /** Strip topologies: their vertices are connected, so a batch may not be extended. */
  predicate IsStrip(p: PrimitiveType)
  {
    p == TriangleStrip || p == LineStrip
  }

  /** Primitives whose bounding region is widened by the stroke thickness. */
  predicate IsThick(p: PrimitiveType)
  {
    p == Points || p == Lines || p == LineStrip
  }

  datatype Vec2 = Vec2(x: real, y: real)
  datatype Color = Color(r: bv8, g: bv8, b: bv8, a: bv8)
  datatype Vertex = Vertex(position: Vec2, texcoord: Vec2, color: Color)
  /** A 2x3 affine matrix; the model never computes with its entries. */
  datatype Mat = Mat(v00: real, v01: real, v02: real, v10: real, v11: real, v12: real)
  datatype IRect = IRect(x: int, y: int, w: int, h: int)
  datatype ISize = ISize(w: int, h: int)
  /** Axis-aligned box in clip space: (x1, y1) lower corner, (x2, y2) upper corner. */
  datatype Region = Region(x1: real, y1: real, x2: real, y2: real)

  const IDENTITY: Mat := Mat(1.0, 0.0, 0.0, 0.0, 1.0, 0.0)
  const WHITE: Color := Color(255, 255, 255, 255)

  /** sgp_uniform: two 16-bit sizes followed by a 32-byte payload. */
  datatype UniformBlock = UniformBlock(vsSize: nat, fsSize: nat, data: seq<bv8>)
  type Uniform = u: UniformBlock | |u.data| == UNIFORM_BYTES && u.vsSize + u.fsSize <= UNIFORM_BYTES
    witness UniformBlock(0, 0, ZERO_BYTES)
  const ZERO_UNIFORM: Uniform := UniformBlock(0, 0, ZERO_BYTES)

  /** sgp_textures_uniform: an active count and four (image, sampler) slots. */
  datatype TextureSet = TextureSet(count: nat, images: seq<nat>, samplers: seq<nat>)
  type Textures = t: TextureSet | t.count <= TEXTURE_SLOTS && |t.images| == TEXTURE_SLOTS && |t.samplers| == TEXTURE_SLOTS
    witness TextureSet(0, [0, 0, 0, 0], [0, 0, 0, 0])
  const ZERO_TEXTURES: Textures := TextureSet(0, [0, 0, 0, 0], [0, 0, 0, 0])

  /** _sgp_draw_args. */
  datatype DrawArgs = DrawArgs(
    pip: nat,
    textures: Textures,
    region: Region,
    uniformIndex: nat,
    vertexIndex: nat,
    numVertices: nat)

  /** _sgp_command: the tag and its payload. NoneCmd marks a command optimized away. */
  datatype Command =
    | NoneCmd
    | Draw(args: DrawArgs)
    | SetViewport(viewport: IRect)
    | SetScissor(scissor: IRect)

  /** sgp_state: the current draw state, including the segment's base cursors. */
  datatype State = State(
    frameSize: ISize,
    viewport: IRect,
    scissor: IRect,
    proj: Mat,
    transform: Mat,
    mvp: Mat,
    thickness: real,
    color: Color,
    textures: Textures,
    uniform: Uniform,
    blendMode: BlendMode,
    pipeline: nat,
    baseVertex: nat,
    baseUniform: nat,
    baseCommand: nat)

  /** The all-zero state of a freshly set-up context. */
  const ZERO_STATE: State := State(
    ISize(0, 0), IRect(0, 0, 0, 0), IRect(0, 0, 0, 0),
    Mat(0.0, 0.0, 0.0, 0.0, 0.0, 0.0), Mat(0.0, 0.0, 0.0, 0.0, 0.0, 0.0), Mat(0.0, 0.0, 0.0, 0.0, 0.0, 0.0),
    0.0, Color(0, 0, 0, 0), ZERO_TEXTURES, ZERO_UNIFORM, BlendNone, INVALID_ID, 0, 0, 0)
}
