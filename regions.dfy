/** Bounding regions in clip space: the strict overlap test the batch optimizer uses,
    the union a merged batch gets, and the min/max fold the emitters compute. */
module Regions {
  import opened Types

  function Min(a: real, b: real): real { if a < b then a else b }
  function Max(a: real, b: real): real { if a > b then a else b }

  /** _sgp_region_overlaps: boxes overlap unless one lies entirely on one side of the other;
      touching edges do not count as overlap. */
  predicate Overlaps(a: Region, b: Region)
  {
    !(a.x2 <= b.x1 || b.x2 <= a.x1 || a.y2 <= b.y1 || b.y2 <= a.y1)
  }

  predicate StrictlyInside(p: Vec2, r: Region)
  {
    r.x1 < p.x < r.x2 && r.y1 < p.y < r.y2
  }

  /** A box with a non-empty interior. */
  predicate Proper(r: Region)
  {
    r.x1 < r.x2 && r.y1 < r.y2
  }

  /** Two boxes with interiors overlap exactly when some point lies strictly inside both.
      (A flat box, e.g. of a zero-thickness horizontal triangle fan, can still "overlap".) */
  lemma OverlapsIffCommonInterior(a: Region, b: Region)
    requires Proper(a) && Proper(b)
    ensures Overlaps(a, b) <==> exists p :: StrictlyInside(p, a) && StrictlyInside(p, b)
  {
    if Overlaps(a, b) {
      var lx, hx := Max(a.x1, b.x1), Min(a.x2, b.x2);
      var ly, hy := Max(a.y1, b.y1), Min(a.y2, b.y2);
      var mx, my := (lx + hx) / 2.0, (ly + hy) / 2.0;
      assert lx < mx < hx && ly < my < hy;
      var p := Vec2(mx, my);
      assert StrictlyInside(p, a) && StrictlyInside(p, b);
    }
  }

  /** Boxes that only share an edge do not overlap. */
  lemma SharedEdgeIsNoOverlap(a: Region, b: Region)
    requires a.x2 == b.x1 || a.y2 == b.y1
    ensures !Overlaps(a, b) && !Overlaps(b, a)
  {
  }

  /** `outer` contains `inner`. */
  predicate Contains(outer: Region, inner: Region)
  {
    outer.x1 <= inner.x1 && outer.y1 <= inner.y1 && inner.x2 <= outer.x2 && inner.y2 <= outer.y2
  }

  /** Region of a merged batch: the smallest box containing both operands. */
  function Union(a: Region, b: Region): (r: Region)
    ensures Contains(r, a) && Contains(r, b)
    ensures forall c :: Contains(c, a) && Contains(c, b) ==> Contains(c, r)
  {
    Region(Min(a.x1, b.x1), Min(a.y1, b.y1), Max(a.x2, b.x2), Max(a.y2, b.y2))
  }

  /** A region wholly outside the canonical clip square [-1,1]x[-1,1]: such a draw is dropped. */
  predicate OffScreen(r: Region)
  {
    r.x1 > 1.0 || r.y1 > 1.0 || r.x2 < -1.0 || r.y2 < -1.0
  }

  /** Seed of every emitter's fold: {FLT_MAX, FLT_MAX, -FLT_MAX, -FLT_MAX}. */
  const EMPTY_REGION: Region := Region(FLT_MAX, FLT_MAX, -FLT_MAX, -FLT_MAX)

  /** One step of the emitters' fold: widen `r` to cover `p` grown by `t` on every side. */
  function Include(r: Region, p: Vec2, t: real): Region
  {
    Region(Min(r.x1, p.x - t), Min(r.y1, p.y - t), Max(r.x2, p.x + t), Max(r.y2, p.y + t))
  }

  /** The fold over `ps` in emission order. */
  function FoldRegion(r: Region, ps: seq<Vec2>, t: real): Region
    decreases |ps|
  {
    if |ps| == 0 then r else Include(FoldRegion(r, ps[..|ps| - 1], t), ps[|ps| - 1], t)
  }

  predicate Covers(r: Region, p: Vec2, t: real)
  {
    r.x1 <= p.x - t && r.y1 <= p.y - t && p.x + t <= r.x2 && p.y + t <= r.y2
  }

  /** The folded region covers the seed and every point grown by the thickness. */
  lemma {:induction false} FoldCovers(r: Region, ps: seq<Vec2>, t: real)
    ensures Contains(FoldRegion(r, ps, t), r)
    ensures forall k :: 0 <= k < |ps| ==> Covers(FoldRegion(r, ps, t), ps[k], t)
    decreases |ps|
  {
    if |ps| > 0 {
      var init := ps[..|ps| - 1];
      FoldCovers(r, init, t);
      forall k | 0 <= k < |ps| ensures Covers(FoldRegion(r, ps, t), ps[k], t) {
        if k < |ps| - 1 {
          assert ps[k] == init[k];
        }
      }
    }
  }

  /** Each bound of the folded region is the seed's bound or is attained by some grown point. */
  lemma {:induction false} FoldTight(r: Region, ps: seq<Vec2>, t: real)
    ensures var f := FoldRegion(r, ps, t);
      && (f.x1 == r.x1 || exists k :: 0 <= k < |ps| && f.x1 == ps[k].x - t)
      && (f.y1 == r.y1 || exists k :: 0 <= k < |ps| && f.y1 == ps[k].y - t)
      && (f.x2 == r.x2 || exists k :: 0 <= k < |ps| && f.x2 == ps[k].x + t)
      && (f.y2 == r.y2 || exists k :: 0 <= k < |ps| && f.y2 == ps[k].y + t)
    decreases |ps|
  {
    if |ps| > 0 {
      var init := ps[..|ps| - 1];
      FoldTight(r, init, t);
      forall k | 0 <= k < |init| ensures init[k] == ps[k] { }
    }
  }
}
