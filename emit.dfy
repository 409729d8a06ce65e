/** The draw emitters: the vertices sgp_clear, sgp_draw, the solid-primitive helpers and the
    rectangle emitters write into the vertex arena, and the region they queue with it. */
module Emit {
  import opened Types
  import opened Regions

  /** _sgp_mat3_vec2_mul: the affine map of a 2x3 matrix. */
  function Apply(m: Mat, p: Vec2): Vec2
  {
    Vec2(m.v00 * p.x + m.v01 * p.y + m.v02, m.v10 * p.x + m.v11 * p.y + m.v12)
  }

  /** _sgp_mul_proj_transform: the product of a projection and a transform, computed only
      from the projection's diagonal and translation. */
  function MulProj(proj: Mat, t: Mat): Mat
  {
    Mat(proj.v00 * t.v00, proj.v00 * t.v01, proj.v00 * t.v02 + proj.v02,
        proj.v11 * t.v10, proj.v11 * t.v11, proj.v11 * t.v12 + proj.v12)
  }

  /** A projection without shear, as _sgp_default_proj and sgp_project build. */
  predicate AxisAligned(m: Mat)
  {
    m.v01 == 0.0 && m.v10 == 0.0
  }

  /** For such a projection the shortcut product is the composition: mapping by the product
      is mapping by the transform, then by the projection. */
  lemma MulProjComposes(proj: Mat, t: Mat, p: Vec2)
    requires AxisAligned(proj)
    ensures Apply(MulProj(proj, t), p) == Apply(proj, Apply(t, p))
  {
    var q := Apply(t, p);
    ComposeRow(proj.v00, proj.v01, proj.v02, t.v00, t.v01, t.v02, p.x, p.y, q.y);
    ComposeRow(proj.v11, proj.v10, proj.v12, t.v10, t.v11, t.v12, p.x, p.y, q.x);
  }

  /** One row of the product: the diagonal coefficient `k` scales the transform's row, the
      translation `d` is added, and the zero shear coefficient `z` contributes nothing. */
  lemma ComposeRow(k: real, z: real, d: real, a: real, b: real, c: real, x: real, y: real, w: real)
    requires z == 0.0
    ensures (k * a) * x + (k * b) * y + (k * c + d) == k * (a * x + b * y + c) + z * w + d
    ensures (k * a) * x + (k * b) * y + (k * c + d) == z * w + k * (a * x + b * y + c) + d
  {
    assert z * w == 0.0;
    assert k * (a * x + b * y + c) == k * (a * x) + k * (b * y) + k * c;
    assert k * (a * x) == (k * a) * x;
    assert k * (b * y) == (k * b) * y;
  }

  /** sgp_rect. */
  datatype Rect = Rect(x: real, y: real, w: real, h: real)
  /** sgp_textured_rect: where to draw and which part of the image to draw there. */
  datatype TexturedRect = TexturedRect(dst: Rect, src: Rect)

  /** The corners of a rectangle: bottom left, bottom right, top right, top left. */
  function Quad(r: Rect): seq<Vec2>
  {
    [Vec2(r.x, r.y + r.h), Vec2(r.x + r.w, r.y + r.h), Vec2(r.x + r.w, r.y), Vec2(r.x, r.y)]
  }

  /** A quad as two triangles sharing the bottom-left to top-right diagonal: the corner each
      of the six vertices takes. */
  const LAYOUT: seq<nat> := [0, 1, 2, 3, 0, 2]

  /** The texture coordinates of a filled rectangle: the whole unit square. */
  const UNIT_TEXQUAD: seq<Vec2> := [Vec2(0.0, 1.0), Vec2(1.0, 1.0), Vec2(1.0, 0.0), Vec2(0.0, 0.0)]

  /** The texture coordinates of a textured rectangle: its source rectangle scaled by the
      reciprocal image size. */
  function TexQuad(src: Rect, iw: real, ih: real): seq<Vec2>
  {
    var tl, tt := src.x * iw, src.y * ih;
    var tr, tb := (src.x + src.w) * iw, (src.y + src.h) * ih;
    [Vec2(tl, tb), Vec2(tr, tb), Vec2(tr, tt), Vec2(tl, tt)]
  }

  /** The clip square sgp_clear fills, and the region it queues. */
  const CLEAR_QUAD: seq<Vec2> := [Vec2(-1.0, -1.0), Vec2(1.0, -1.0), Vec2(1.0, 1.0), Vec2(-1.0, 1.0)]
  const CLEAR_REGION: Region := Region(-1.0, -1.0, 1.0, 1.0)

  function Positions(vs: seq<Vertex>): (ps: seq<Vec2>)
    ensures |ps| == |vs| && forall k :: 0 <= k < |vs| ==> ps[k] == vs[k].position
  {
    seq(|vs|, k requires 0 <= k < |vs| => vs[k].position)
  }

  /** sgp_clear's six vertices: the clip square in the quad layout, untextured, in `color`. */
  function ClearVertices(color: Color): seq<Vertex>
  {
    seq(6, k requires 0 <= k < 6 => Vertex(CLEAR_QUAD[LAYOUT[k]], Vec2(0.0, 0.0), color))
  }

  /** The fixed region sgp_clear queues is the one the emitters' fold would compute for its
      vertices, so it bounds them tightly. */
  lemma ClearRegionIsFold(color: Color)
    ensures FoldRegion(EMPTY_REGION, Positions(ClearVertices(color)), 0.0) == CLEAR_REGION
  {
    var ps := Positions(ClearVertices(color));
    var a, b, c, d := CLEAR_QUAD[0], CLEAR_QUAD[1], CLEAR_QUAD[2], CLEAR_QUAD[3];
    assert ps == [a, b, c, d, a, c];
    assert ps[..1] == [a] && ps[..1][..0] == [];
    assert FoldRegion(EMPTY_REGION, ps[..1], 0.0) == Region(-1.0, -1.0, -1.0, -1.0);
    assert ps[..2][..1] == ps[..1];
    assert FoldRegion(EMPTY_REGION, ps[..2], 0.0) == Region(-1.0, -1.0, 1.0, -1.0);
    assert ps[..3][..2] == ps[..2];
    assert FoldRegion(EMPTY_REGION, ps[..3], 0.0) == CLEAR_REGION;
    assert ps[..4][..3] == ps[..3];
    assert FoldRegion(EMPTY_REGION, ps[..4], 0.0) == CLEAR_REGION;
    assert ps[..5][..4] == ps[..4];
    assert FoldRegion(EMPTY_REGION, ps[..5], 0.0) == CLEAR_REGION;
    assert ps[..5] == ps[..|ps| - 1];
  }

  /** The stroke thickness that grows the region: only points and lines have one. */
  function Grow(prim: PrimitiveType, thickness: real): real
  {
    if IsThick(prim) then thickness else 0.0
  }

  /** sgp_draw's vertices: positions mapped by `mvp`, texture coordinates and colors kept. */
  function DrawVertices(mvp: Mat, vs: seq<Vertex>): (r: seq<Vertex>)
    ensures |r| == |vs|
  {
    seq(|vs|, k requires 0 <= k < |vs| => Vertex(Apply(mvp, vs[k].position), vs[k].texcoord, vs[k].color))
  }

  /** _sgp_draw_solid_pip's vertices: mapped points, no texture coordinates, one color. */
  function SolidVertices(mvp: Mat, pts: seq<Vec2>, color: Color): (r: seq<Vertex>)
    ensures |r| == |pts|
  {
    seq(|pts|, k requires 0 <= k < |pts| => Vertex(Apply(mvp, pts[k]), Vec2(0.0, 0.0), color))
  }

  /** Drawing solid points is sgp_draw with untextured vertices in the state color. */
  lemma SolidIsPlainDraw(mvp: Mat, pts: seq<Vec2>, color: Color)
    ensures SolidVertices(mvp, pts, color)
      == DrawVertices(mvp, seq(|pts|, k requires 0 <= k < |pts| => Vertex(pts[k], Vec2(0.0, 0.0), color)))
  {
  }

  /** sgp_line and sgp_triangle: the wrappers pass their endpoints to the solid emitter as
      one flat array of points. */
  datatype Line = Line(a: Vec2, b: Vec2)
  datatype Triangle = Triangle(a: Vec2, b: Vec2, c: Vec2)

  /** The points of `count` lines: two per line, in order. */
  function LinePoints(lines: seq<Line>): (ps: seq<Vec2>)
    ensures |ps| == 2 * |lines|
    ensures forall i :: 0 <= i < |lines| ==> ps[2 * i] == lines[i].a && ps[2 * i + 1] == lines[i].b
  {
    if |lines| == 0 then []
    else
      var init := LinePoints(lines[..|lines| - 1]);
      var last := lines[|lines| - 1];
      assert forall i :: 0 <= i < |lines| - 1 ==> lines[..|lines| - 1][i] == lines[i];
      init + [last.a, last.b]
  }

  /** The points of `count` triangles: three per triangle, in order. */
  function TrianglePoints(tris: seq<Triangle>): (ps: seq<Vec2>)
    ensures |ps| == 3 * |tris|
    ensures forall i :: 0 <= i < |tris| ==> ps[3 * i] == tris[i].a && ps[3 * i + 1] == tris[i].b && ps[3 * i + 2] == tris[i].c
  {
    if |tris| == 0 then []
    else
      var init := TrianglePoints(tris[..|tris| - 1]);
      var last := tris[|tris| - 1];
      assert forall i :: 0 <= i < |tris| - 1 ==> tris[..|tris| - 1][i] == tris[i];
      init + [last.a, last.b, last.c]
  }

  /** The six vertices of one filled rectangle, in the quad layout. */
  function RectSix(mvp: Mat, r: Rect, color: Color): (six: seq<Vertex>)
    ensures |six| == 6
  {
    seq(6, c requires 0 <= c < 6 => Vertex(Apply(mvp, Quad(r)[LAYOUT[c]]), UNIT_TEXQUAD[LAYOUT[c]], color))
  }

  /** sgp_draw_filled_rects' vertices: six per rectangle, rectangle after rectangle. */
  function RectVertices(mvp: Mat, rects: seq<Rect>, color: Color): (r: seq<Vertex>)
    ensures |r| == 6 * |rects|
  {
    if |rects| == 0 then []
    else RectVertices(mvp, rects[..|rects| - 1], color) + RectSix(mvp, rects[|rects| - 1], color)
  }

  /** The mapped corners of one rectangle. */
  function MappedQuad(mvp: Mat, r: Rect): (q: seq<Vec2>)
    ensures |q| == 4
  {
    seq(4, c requires 0 <= c < 4 => Apply(mvp, Quad(r)[c]))
  }

  /** The mapped corners of every rectangle in emission order: what the rectangle emitters
      fold into their region. */
  function RectCorners(mvp: Mat, rects: seq<Rect>): (r: seq<Vec2>)
    ensures |r| == 4 * |rects|
  {
    if |rects| == 0 then []
    else RectCorners(mvp, rects[..|rects| - 1]) + MappedQuad(mvp, rects[|rects| - 1])
  }

  /** The six vertices of one textured rectangle: the destination's geometry with the source's
      texture coordinates. */
  function TexturedSix(mvp: Mat, r: TexturedRect, iw: real, ih: real, color: Color): (six: seq<Vertex>)
    ensures |six| == 6
  {
    seq(6, c requires 0 <= c < 6 => Vertex(Apply(mvp, Quad(r.dst)[LAYOUT[c]]), TexQuad(r.src, iw, ih)[LAYOUT[c]], color))
  }

  /** sgp_draw_textured_rects' vertices. */
  function TexturedVertices(mvp: Mat, rects: seq<TexturedRect>, iw: real, ih: real, color: Color): (r: seq<Vertex>)
    ensures |r| == 6 * |rects|
  {
    if |rects| == 0 then []
    else TexturedVertices(mvp, rects[..|rects| - 1], iw, ih, color) + TexturedSix(mvp, rects[|rects| - 1], iw, ih, color)
  }

  function Destinations(rects: seq<TexturedRect>): (r: seq<Rect>)
    ensures |r| == |rects| && forall i :: 0 <= i < |rects| ==> r[i] == rects[i].dst
  {
    seq(|rects|, i requires 0 <= i < |rects| => rects[i].dst)
  }

  /** The texture coordinates of a textured rectangle whose source is the whole image are the
      unit square, so drawing it emits exactly the vertices of the filled destination. */
  lemma {:induction false} WholeImageIsFilledRect(mvp: Mat, rects: seq<TexturedRect>, width: real, height: real, color: Color)
    requires width > 0.0 && height > 0.0
    requires forall i :: 0 <= i < |rects| ==> rects[i].src == Rect(0.0, 0.0, width, height)
    ensures TexturedVertices(mvp, rects, 1.0 / width, 1.0 / height, color) == RectVertices(mvp, Destinations(rects), color)
  {
    if |rects| > 0 {
      var n := |rects| - 1;
      WholeImageIsFilledRect(mvp, rects[..n], width, height, color);
      assert Destinations(rects)[..n] == Destinations(rects[..n]);
      var t := TexQuad(rects[n].src, 1.0 / width, 1.0 / height);
      assert (0.0 + width) * (1.0 / width) == 1.0 && (0.0 + height) * (1.0 / height) == 1.0;
      assert t[0] == UNIT_TEXQUAD[0] && t[1] == UNIT_TEXQUAD[1] && t[2] == UNIT_TEXQUAD[2] && t[3] == UNIT_TEXQUAD[3];
      assert TexturedSix(mvp, rects[n], 1.0 / width, 1.0 / height, color) == RectSix(mvp, rects[n].dst, color);
    }
  }

  /** Vertex `6i + c` of the filled rectangles is slot `c` of rectangle `i`. */
  lemma {:induction false} RectVertexAt(mvp: Mat, rects: seq<Rect>, color: Color, i: nat, c: nat)
    requires i < |rects| && c < 6
    ensures RectVertices(mvp, rects, color)[6 * i + c] == RectSix(mvp, rects[i], color)[c]
    decreases |rects|
  {
    var n := |rects| - 1;
    if i < n {
      RectVertexAt(mvp, rects[..n], color, i, c);
    }
  }

  /** Corner `4i + c` of the fold is corner `c` of rectangle `i`. */
  lemma {:induction false} RectCornerAt(mvp: Mat, rects: seq<Rect>, i: nat, c: nat)
    requires i < |rects| && c < 4
    ensures RectCorners(mvp, rects)[4 * i + c] == MappedQuad(mvp, rects[i])[c]
    decreases |rects|
  {
    var n := |rects| - 1;
    if i < n {
      RectCornerAt(mvp, rects[..n], i, c);
    }
  }

  /** Vertex `c` of a rectangle's six lies on its corner LAYOUT[c]. */
  lemma RectSixAt(mvp: Mat, r: Rect, color: Color, c: nat)
    requires c < 6
    ensures LAYOUT[c] < 4 && RectSix(mvp, r, color)[c].position == MappedQuad(mvp, r)[LAYOUT[c]]
  {
  }

  lemma SplitSix(k: nat) returns (i: nat, c: nat)
    ensures k == 6 * i + c && c < 6
  {
    i, c := k / 6, k % 6;
  }

  lemma SplitFour(j: nat) returns (i: nat, c: nat)
    ensures j == 4 * i + c && c < 4
  {
    i, c := j / 4, j % 4;
  }

  /** Every vertex of the filled rectangles lies on a mapped corner of its rectangle, and
      every mapped corner is the position of one of its vertices. */
  lemma RectVerticesOnCorners(mvp: Mat, rects: seq<Rect>, color: Color)
    ensures var vs := RectVertices(mvp, rects, color);
      var cs := RectCorners(mvp, rects);
      && (forall k :: 0 <= k < |vs| ==> vs[k].position in cs)
      && (forall j :: 0 <= j < |cs| ==> cs[j] in Positions(vs))
  {
    VerticesOnCorners(mvp, rects, color);
    CornersOnVertices(mvp, rects, color);
  }

  lemma VerticesOnCorners(mvp: Mat, rects: seq<Rect>, color: Color)
    ensures var vs := RectVertices(mvp, rects, color);
      forall k :: 0 <= k < |vs| ==> vs[k].position in RectCorners(mvp, rects)
  {
    var vs := RectVertices(mvp, rects, color);
    var cs := RectCorners(mvp, rects);
    forall k | 0 <= k < |vs| ensures vs[k].position in cs {
      var i, c := SplitSix(k);
      RectVertexAt(mvp, rects, color, i, c);
      RectSixAt(mvp, rects[i], color, c);
      RectCornerAt(mvp, rects, i, LAYOUT[c]);
      var j := 4 * i + LAYOUT[c];
      assert 0 <= j < |cs|;
      assert vs[k].position == cs[j];
    }
  }

  lemma CornersOnVertices(mvp: Mat, rects: seq<Rect>, color: Color)
    ensures var cs := RectCorners(mvp, rects);
      forall j :: 0 <= j < |cs| ==> cs[j] in Positions(RectVertices(mvp, rects, color))
  {
    var vs := RectVertices(mvp, rects, color);
    var cs := RectCorners(mvp, rects);
    forall j | 0 <= j < |cs| ensures cs[j] in Positions(vs) {
      var i, c := SplitFour(j);
      RectVertexAt(mvp, rects, color, i, c);
      RectSixAt(mvp, rects[i], color, c);
      assert LAYOUT[c] == c;
      RectCornerAt(mvp, rects, i, c);
      var k := 6 * i + c;
      assert 0 <= k < |vs|;
      assert vs[k].position == cs[j] == Positions(vs)[k];
    }
  }

  /** The region a rectangle emitter queues bounds every vertex it emitted, and each of its
      edges is reached by one of them (or is the empty seed when nothing was emitted). */
  lemma RectRegionBoundsVertices(mvp: Mat, rects: seq<Rect>, color: Color)
    ensures var vs := RectVertices(mvp, rects, color);
      var f := FoldRegion(EMPTY_REGION, RectCorners(mvp, rects), 0.0);
      && (forall k :: 0 <= k < |vs| ==> Covers(f, vs[k].position, 0.0))
      && (f.x1 == EMPTY_REGION.x1 || exists k :: 0 <= k < |vs| && f.x1 == vs[k].position.x)
      && (f.y1 == EMPTY_REGION.y1 || exists k :: 0 <= k < |vs| && f.y1 == vs[k].position.y)
      && (f.x2 == EMPTY_REGION.x2 || exists k :: 0 <= k < |vs| && f.x2 == vs[k].position.x)
      && (f.y2 == EMPTY_REGION.y2 || exists k :: 0 <= k < |vs| && f.y2 == vs[k].position.y)
  {
    var cs := RectCorners(mvp, rects);
    RectVerticesOnCorners(mvp, rects, color);
    FoldCovers(EMPTY_REGION, cs, 0.0);
    FoldTight(EMPTY_REGION, cs, 0.0);
  }

  /** The same for sgp_draw, the solid helpers and sgp_clear: the region folded over the
      emitted positions, grown by the thickness, covers each of them. */
  lemma DrawRegionBoundsVertices(vs: seq<Vertex>, t: real)
    ensures var f := FoldRegion(EMPTY_REGION, Positions(vs), t);
      forall k :: 0 <= k < |vs| ==> Covers(f, vs[k].position, t)
  {
    FoldCovers(EMPTY_REGION, Positions(vs), t);
  }

  /** The vertices of an array after `vs` were written at `at`. */
  function Written(s: seq<Vertex>, at: nat, vs: seq<Vertex>): (r: seq<Vertex>)
    requires at + |vs| <= |s|
    ensures |r| == |s|
  {
    s[..at] + vs + s[at + |vs|..]
  }

  /** The fill loop of sgp_draw: maps each given vertex into the arena and folds the region. */
  method FillDraw(a: array<Vertex>, at: nat, mvp: Mat, vs: seq<Vertex>, t: real) returns (region: Region)
    requires at + |vs| <= a.Length
    modifies a
    ensures a[..] == Written(old(a[..]), at, DrawVertices(mvp, vs))
    ensures region == FoldRegion(EMPTY_REGION, Positions(DrawVertices(mvp, vs)), t)
  {
    ghost var s := a[..];
    ghost var out := DrawVertices(mvp, vs);
    region := EMPTY_REGION;
    var i := 0;
    while i < |vs|
      invariant 0 <= i <= |vs| && |s| == a.Length
      invariant forall j :: 0 <= j < a.Length && !(at <= j < at + i) ==> a[j] == s[j]
      invariant forall j :: at <= j < at + i ==> a[j] == out[j - at]
      invariant region == FoldRegion(EMPTY_REGION, Positions(out)[..i], t)
    {
      var p := Apply(mvp, vs[i].position);
      assert Positions(out)[..i + 1][..i] == Positions(out)[..i];
      region := Include(region, p, t);
      a[at + i] := Vertex(p, vs[i].texcoord, vs[i].color);
      i := i + 1;
    }
    assert Positions(out)[..|vs|] == Positions(out);
    assert a[..] == Written(s, at, out);
  }

  /** The fill loop of _sgp_draw_solid_pip. */
  method FillSolid(a: array<Vertex>, at: nat, mvp: Mat, pts: seq<Vec2>, color: Color, t: real) returns (region: Region)
    requires at + |pts| <= a.Length
    modifies a
    ensures a[..] == Written(old(a[..]), at, SolidVertices(mvp, pts, color))
    ensures region == FoldRegion(EMPTY_REGION, Positions(SolidVertices(mvp, pts, color)), t)
  {
    ghost var s := a[..];
    ghost var out := SolidVertices(mvp, pts, color);
    region := EMPTY_REGION;
    var i := 0;
    while i < |pts|
      invariant 0 <= i <= |pts| && |s| == a.Length
      invariant forall j :: 0 <= j < a.Length && !(at <= j < at + i) ==> a[j] == s[j]
      invariant forall j :: at <= j < at + i ==> a[j] == out[j - at]
      invariant region == FoldRegion(EMPTY_REGION, Positions(out)[..i], t)
    {
      var p := Apply(mvp, pts[i]);
      assert Positions(out)[..i + 1][..i] == Positions(out)[..i];
      region := Include(region, p, t);
      a[at + i] := Vertex(p, Vec2(0.0, 0.0), color);
      i := i + 1;
    }
    assert Positions(out)[..|pts|] == Positions(out);
    assert a[..] == Written(s, at, out);
  }

  /** Folding four more points is four steps of the fold. */
  lemma FoldFour(r: Region, ps: seq<Vec2>, q: seq<Vec2>, t: real)
    requires |q| == 4
    ensures FoldRegion(r, ps + q, t)
      == Include(Include(Include(Include(FoldRegion(r, ps, t), q[0], t), q[1], t), q[2], t), q[3], t)
  {
    var n := |ps|;
    var s := ps + q;
    assert FoldRegion(r, s[..n + 1], t) == Include(FoldRegion(r, ps, t), q[0], t) by {
      assert s[..n + 1][..n] == ps;
    }
    assert FoldRegion(r, s[..n + 2], t) == Include(FoldRegion(r, s[..n + 1], t), q[1], t) by {
      assert s[..n + 2][..n + 1] == s[..n + 1];
    }
    assert FoldRegion(r, s[..n + 3], t) == Include(FoldRegion(r, s[..n + 2], t), q[2], t) by {
      assert s[..n + 3][..n + 2] == s[..n + 2];
    }
    assert s[..n + 4] == s;
  }

  /** The region of the first `i + 1` rectangles is that of the first `i` with the four
      mapped corners of the next included. */
  lemma CornersStep(mvp: Mat, rects: seq<Rect>, i: nat, q: seq<Vec2>)
    requires i < |rects| && q == MappedQuad(mvp, rects[i])
    ensures FoldRegion(EMPTY_REGION, RectCorners(mvp, rects[..i + 1]), 0.0)
      == Include(Include(Include(Include(FoldRegion(EMPTY_REGION, RectCorners(mvp, rects[..i]), 0.0), q[0], 0.0), q[1], 0.0), q[2], 0.0), q[3], 0.0)
  {
    assert rects[..i + 1][..i] == rects[..i];
    FoldFour(EMPTY_REGION, RectCorners(mvp, rects[..i]), q, 0.0);
  }

  /** The fill loop of sgp_draw_filled_rects. */
  method FillRects(a: array<Vertex>, at: nat, mvp: Mat, rects: seq<Rect>, color: Color) returns (region: Region)
    requires at + 6 * |rects| <= a.Length
    modifies a
    ensures a[..] == Written(old(a[..]), at, RectVertices(mvp, rects, color))
    ensures region == FoldRegion(EMPTY_REGION, RectCorners(mvp, rects), 0.0)
  {
    ghost var s := a[..];
    ghost var out := RectVertices(mvp, rects, color);
    region := EMPTY_REGION;
    var i := 0;
    while i < |rects|
      invariant 0 <= i <= |rects| && |s| == a.Length
      invariant forall j :: 0 <= j < a.Length && !(at <= j < at + 6 * i) ==> a[j] == s[j]
      invariant forall j :: at <= j < at + 6 * i ==> a[j] == out[j - at]
      invariant region == FoldRegion(EMPTY_REGION, RectCorners(mvp, rects[..i]), 0.0)
    {
      var q := MappedQuad(mvp, rects[i]);
      CornersStep(mvp, rects, i, q);
      region := Include(Include(Include(Include(region, q[0], 0.0), q[1], 0.0), q[2], 0.0), q[3], 0.0);
      PutRect(a, at, mvp, rects, color, i, q);
      i := i + 1;
    }
    assert rects[..|rects|] == rects;
    assert a[..] == Written(s, at, out);
  }

  /** Writes rectangle `i` of a batch written at `at`, its corners `q` already mapped. */
  method PutRect(a: array<Vertex>, at: nat, mvp: Mat, rects: seq<Rect>, color: Color, i: nat, q: seq<Vec2>)
    requires i < |rects| && at + 6 * |rects| <= a.Length && q == MappedQuad(mvp, rects[i])
    modifies a
    ensures forall j :: 0 <= j < a.Length && !(at + 6 * i <= j < at + 6 * i + 6) ==> a[j] == old(a[j])
    ensures forall j :: at + 6 * i <= j < at + 6 * i + 6 ==> a[j] == RectVertices(mvp, rects, color)[j - at]
  {
    var v := at + 6 * i;
    PutQuad(a, v, q, UNIT_TEXQUAD, color);
    RectSlots(mvp, rects, color, i);
    forall j | v <= j < v + 6
      ensures a[j] == RectVertices(mvp, rects, color)[j - at]
    {
      assert j - at == 6 * i + (j - v);
    }
  }

  /** Writes the positions of textured rectangle `i` of a batch written at `at`. */
  method PutRectPositions(a: array<Vertex>, at: nat, mvp: Mat, rects: seq<TexturedRect>, iw: real, ih: real, color: Color,
                          i: nat, q: seq<Vec2>)
    requires i < |rects| && at + 6 * |rects| <= a.Length && q == MappedQuad(mvp, rects[i].dst)
    modifies a
    ensures forall j :: 0 <= j < a.Length && !(at + 6 * i <= j < at + 6 * i + 6) ==> a[j] == old(a[j])
    ensures forall j :: at + 6 * i <= j < at + 6 * i + 6 ==>
      a[j] == old(a[j]).(position := TexturedVertices(mvp, rects, iw, ih, color)[j - at].position)
  {
    var v := at + 6 * i;
    PutPositions(a, v, q);
    TexturedSlots(mvp, rects, iw, ih, color, i);
    forall j | v <= j < v + 6
      ensures a[j] == old(a[j]).(position := TexturedVertices(mvp, rects, iw, ih, color)[j - at].position)
    {
      assert j - at == 6 * i + (j - v);
    }
  }

  /** Writes the texture coordinates and color of textured rectangle `i` of a batch written at `at`. */
  method PutRectTexcoords(a: array<Vertex>, at: nat, mvp: Mat, rects: seq<TexturedRect>, iw: real, ih: real, color: Color,
                          i: nat, t: seq<Vec2>)
    requires i < |rects| && at + 6 * |rects| <= a.Length && t == TexQuad(rects[i].src, iw, ih)
    requires forall j :: at + 6 * i <= j < at + 6 * i + 6 ==>
      a[j].position == TexturedVertices(mvp, rects, iw, ih, color)[j - at].position
    modifies a
    ensures forall j :: 0 <= j < a.Length && !(at + 6 * i <= j < at + 6 * i + 6) ==> a[j] == old(a[j])
    ensures forall j :: at + 6 * i <= j < at + 6 * i + 6 ==> a[j] == TexturedVertices(mvp, rects, iw, ih, color)[j - at]
  {
    var v := at + 6 * i;
    PutTexcoords(a, v, t, color);
    TexturedSlots(mvp, rects, iw, ih, color, i);
    forall j | v <= j < v + 6
      ensures a[j] == TexturedVertices(mvp, rects, iw, ih, color)[j - at]
    {
      assert j - at == 6 * i + (j - v);
    }
  }

  /** Writes one quad as six vertices in the quad layout. */
  method PutQuad(a: array<Vertex>, v: nat, q: seq<Vec2>, tex: seq<Vec2>, color: Color)
    requires v + 6 <= a.Length && |q| == 4 && |tex| == 4
    modifies a
    ensures forall j :: 0 <= j < a.Length && !(v <= j < v + 6) ==> a[j] == old(a[j])
    ensures forall j :: v <= j < v + 6 ==> a[j] == Vertex(q[LAYOUT[j - v]], tex[LAYOUT[j - v]], color)
  {
    a[v] := Vertex(q[0], tex[0], color);
    a[v + 1] := Vertex(q[1], tex[1], color);
    a[v + 2] := Vertex(q[2], tex[2], color);
    a[v + 3] := Vertex(q[3], tex[3], color);
    a[v + 4] := Vertex(q[0], tex[0], color);
    a[v + 5] := Vertex(q[2], tex[2], color);
  }

  /** Writes the positions of one quad into six vertices, in the quad layout. */
  method PutPositions(a: array<Vertex>, v: nat, q: seq<Vec2>)
    requires v + 6 <= a.Length && |q| == 4
    modifies a
    ensures forall j :: 0 <= j < a.Length && !(v <= j < v + 6) ==> a[j] == old(a[j])
    ensures forall j :: v <= j < v + 6 ==> a[j] == old(a[j]).(position := q[LAYOUT[j - v]])
  {
    a[v] := a[v].(position := q[0]);
    a[v + 1] := a[v + 1].(position := q[1]);
    a[v + 2] := a[v + 2].(position := q[2]);
    a[v + 3] := a[v + 3].(position := q[3]);
    a[v + 4] := a[v + 4].(position := q[0]);
    a[v + 5] := a[v + 5].(position := q[2]);
  }

  /** Writes the texture coordinates of one quad and the color into six vertices. */
  method PutTexcoords(a: array<Vertex>, v: nat, t: seq<Vec2>, color: Color)
    requires v + 6 <= a.Length && |t| == 4
    modifies a
    ensures forall j :: 0 <= j < a.Length && !(v <= j < v + 6) ==> a[j] == old(a[j])
    ensures forall j :: v <= j < v + 6 ==> a[j] == old(a[j]).(texcoord := t[LAYOUT[j - v]], color := color)
  {
    a[v] := a[v].(texcoord := t[0], color := color);
    a[v + 1] := a[v + 1].(texcoord := t[1], color := color);
    a[v + 2] := a[v + 2].(texcoord := t[2], color := color);
    a[v + 3] := a[v + 3].(texcoord := t[3], color := color);
    a[v + 4] := a[v + 4].(texcoord := t[0], color := color);
    a[v + 5] := a[v + 5].(texcoord := t[2], color := color);
  }

  /** The two fill loops of sgp_draw_textured_rects: positions and region first, then texture
      coordinates and color. */
  method FillTexturedRects(a: array<Vertex>, at: nat, mvp: Mat, rects: seq<TexturedRect>, iw: real, ih: real, color: Color)
      returns (region: Region)
    requires at + 6 * |rects| <= a.Length
    modifies a
    ensures a[..] == Written(old(a[..]), at, TexturedVertices(mvp, rects, iw, ih, color))
    ensures region == FoldRegion(EMPTY_REGION, RectCorners(mvp, Destinations(rects)), 0.0)
  {
    ghost var s := a[..];
    region := PlaceTexturedRects(a, at, mvp, rects, iw, ih, color);
    ghost var placed := a[..];
    TexTexturedRects(a, at, mvp, rects, iw, ih, color);
    ghost var out := TexturedVertices(mvp, rects, iw, ih, color);
    assert Written(placed, at, out) == Written(s, at, out) by {
      assert placed[..at] == s[..at];
      assert placed[at + |out|..] == s[at + |out|..];
    }
  }

  /** The position loop of sgp_draw_textured_rects. */
  method PlaceTexturedRects(a: array<Vertex>, at: nat, mvp: Mat, rects: seq<TexturedRect>, iw: real, ih: real, color: Color)
      returns (region: Region)
    requires at + 6 * |rects| <= a.Length
    modifies a
    ensures forall j :: 0 <= j < a.Length && !(at <= j < at + 6 * |rects|) ==> a[j] == old(a[j])
    ensures forall j :: at <= j < at + 6 * |rects| ==>
      a[j] == old(a[j]).(position := TexturedVertices(mvp, rects, iw, ih, color)[j - at].position)
    ensures region == FoldRegion(EMPTY_REGION, RectCorners(mvp, Destinations(rects)), 0.0)
  {
    ghost var s := a[..];
    ghost var out := TexturedVertices(mvp, rects, iw, ih, color);
    ghost var ds := Destinations(rects);
    region := EMPTY_REGION;
    var i := 0;
    while i < |rects|
      invariant 0 <= i <= |rects| && |s| == a.Length
      invariant forall j :: 0 <= j < a.Length && !(at <= j < at + 6 * i) ==> a[j] == s[j]
      invariant forall j :: at <= j < at + 6 * i ==> a[j] == s[j].(position := out[j - at].position)
      invariant region == FoldRegion(EMPTY_REGION, RectCorners(mvp, ds[..i]), 0.0)
    {
      var q := MappedQuad(mvp, rects[i].dst);
      CornersStep(mvp, ds, i, q);
      region := Include(Include(Include(Include(region, q[0], 0.0), q[1], 0.0), q[2], 0.0), q[3], 0.0);
      PutRectPositions(a, at, mvp, rects, iw, ih, color, i, q);
      i := i + 1;
    }
    assert ds[..|rects|] == ds;
  }

  /** The texture-coordinate loop of sgp_draw_textured_rects: completes the vertices. */
  method TexTexturedRects(a: array<Vertex>, at: nat, mvp: Mat, rects: seq<TexturedRect>, iw: real, ih: real, color: Color)
    requires at + 6 * |rects| <= a.Length
    requires forall j :: at <= j < at + 6 * |rects| ==> a[j].position == TexturedVertices(mvp, rects, iw, ih, color)[j - at].position
    modifies a
    ensures a[..] == Written(old(a[..]), at, TexturedVertices(mvp, rects, iw, ih, color))
  {
    ghost var s := a[..];
    ghost var out := TexturedVertices(mvp, rects, iw, ih, color);
    var i := 0;
    while i < |rects|
      invariant 0 <= i <= |rects| && |s| == a.Length
      invariant forall j :: 0 <= j < a.Length && !(at <= j < at + 6 * i) ==> a[j] == s[j]
      invariant forall j :: at <= j < at + 6 * i ==> a[j] == out[j - at]
    {
      var t := TexQuad(rects[i].src, iw, ih);
      PutRectTexcoords(a, at, mvp, rects, iw, ih, color, i, t);
      i := i + 1;
    }
    assert a[..] == Written(s, at, out);
  }

  /** The six vertices of rectangle `i` in the quad layout of its mapped corners. */
  lemma RectSlots(mvp: Mat, rects: seq<Rect>, color: Color, i: nat)
    requires i < |rects|
    ensures forall c :: 0 <= c < 6 ==>
      RectVertices(mvp, rects, color)[6 * i + c] == Vertex(MappedQuad(mvp, rects[i])[LAYOUT[c]], UNIT_TEXQUAD[LAYOUT[c]], color)
  {
    forall c | 0 <= c < 6
      ensures RectVertices(mvp, rects, color)[6 * i + c]
        == Vertex(MappedQuad(mvp, rects[i])[LAYOUT[c]], UNIT_TEXQUAD[LAYOUT[c]], color)
    {
      RectVertexAt(mvp, rects, color, i, c);
      assert LAYOUT[c] < 4;
    }
  }

  /** The six vertices of textured rectangle `i` in the quad layout of its mapped destination
      and its texture coordinates. */
  lemma TexturedSlots(mvp: Mat, rects: seq<TexturedRect>, iw: real, ih: real, color: Color, i: nat)
    requires i < |rects|
    ensures forall c :: 0 <= c < 6 ==>
      TexturedVertices(mvp, rects, iw, ih, color)[6 * i + c]
        == Vertex(MappedQuad(mvp, rects[i].dst)[LAYOUT[c]], TexQuad(rects[i].src, iw, ih)[LAYOUT[c]], color)
  {
    forall c | 0 <= c < 6
      ensures TexturedVertices(mvp, rects, iw, ih, color)[6 * i + c]
        == Vertex(MappedQuad(mvp, rects[i].dst)[LAYOUT[c]], TexQuad(rects[i].src, iw, ih)[LAYOUT[c]], color)
    {
      TexturedVertexAt(mvp, rects, iw, ih, color, i, c);
      assert LAYOUT[c] < 4;
    }
  }

  /** Vertex `6i + c` of the textured rectangles is slot `c` of rectangle `i`. */
  lemma {:induction false} TexturedVertexAt(mvp: Mat, rects: seq<TexturedRect>, iw: real, ih: real, color: Color, i: nat, c: nat)
    requires i < |rects| && c < 6
    ensures TexturedVertices(mvp, rects, iw, ih, color)[6 * i + c] == TexturedSix(mvp, rects[i], iw, ih, color)[c]
    decreases |rects|
  {
    var n := |rects| - 1;
    if i < n {
      TexturedVertexAt(mvp, rects[..n], iw, ih, color, i, c);
    }
  }
}
