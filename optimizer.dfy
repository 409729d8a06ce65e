/** The batch optimizer: the look-back scan for a compatible earlier draw, the overlap test
    against the draws in between, the two ways of merging, and queueing a draw. */
module Optimizer {
  import opened Types
  import opened Regions
  import opened Arenas

  /** What a new draw must share with an earlier one to be merged into it: the pipeline,
      the texture set and, for a custom pipeline, the uniform contents. */
  datatype DrawKey = DrawKey(pip: nat, textures: Textures, uniform: Option<Uniform>)

  /** An earlier draw is compatible with the key. The uniform it refers to must exist. */
  predicate Matches(a: DrawArgs, key: DrawKey, uniforms: seq<Uniform>)
  {
    a.pip == key.pip && a.textures == key.textures &&
    (key.uniform.None? || (a.uniformIndex < |uniforms| && uniforms[a.uniformIndex] == key.uniform.value))
  }

  /** Commands the scan may step over: optimized-away commands and draws that do not match. */
  predicate Passable(cmds: seq<Command>, uniforms: seq<Uniform>, key: DrawKey, lo: int, hi: nat)
    requires hi <= |cmds|
  {
    forall j :: lo <= j < hi && 0 <= j ==>
      cmds[j].NoneCmd? || (cmds[j].Draw? && !Matches(cmds[j].args, key, uniforms))
  }

  /** Indices of the DRAW commands in [lo, hi), newest first. */
  function DrawsDesc(cmds: seq<Command>, lo: nat, hi: nat): seq<nat>
    requires lo <= hi <= |cmds|
    decreases hi - lo
  {
    if lo == hi then []
    else (if cmds[hi - 1].Draw? then [hi - 1] else []) + DrawsDesc(cmds, lo, hi - 1)
  }

  /** Result of the scan: the candidate to merge with, and the draws stepped over. */
  datatype ScanResult = ScanResult(candidate: Option<nat>, inters: seq<nat>)

  /** The scan loop of _sgp_merge_batch_command from `depth` commands back. Optimized-away
      commands do not consume look-back depth; any command other than a draw ends the scan. */
  function ScanFrom(cmds: seq<Command>, uniforms: seq<Uniform>, base: nat, cur: nat, key: DrawKey,
                    depth: nat, lookup: nat, inters: seq<nat>): ScanResult
    requires base <= cur <= |cmds|
    decreases cur - base - depth
  {
    if depth >= lookup || cur - base < depth + 1 then ScanResult(None, inters)
    else
      var i := cur - (depth + 1);
      match cmds[i]
      case NoneCmd => ScanFrom(cmds, uniforms, base, cur, key, depth + 1, lookup + 1, inters)
      case Draw(a) =>
        if Matches(a, key, uniforms) then ScanResult(Some(i), inters)
        else ScanFrom(cmds, uniforms, base, cur, key, depth + 1, lookup, inters + [i])
      case _ => ScanResult(None, inters)
  }

  function Scan(cmds: seq<Command>, uniforms: seq<Uniform>, base: nat, cur: nat, key: DrawKey): ScanResult
    requires base <= cur <= |cmds|
  {
    ScanFrom(cmds, uniforms, base, cur, key, 0, BATCH_OPTIMIZER_DEPTH, [])
  }

  /** `c` is the draw to merge with: the nearest compatible draw of the segment, reachable
      over passable commands only, with fewer than BATCH_OPTIMIZER_DEPTH draws in between. */
  predicate IsCandidate(cmds: seq<Command>, uniforms: seq<Uniform>, key: DrawKey, base: nat, cur: nat, c: nat)
    requires cur <= |cmds|
  {
    base <= c < cur && cmds[c].Draw? && Matches(cmds[c].args, key, uniforms) &&
    Passable(cmds, uniforms, key, c + 1, cur) &&
    |DrawsDesc(cmds, c + 1, cur)| < BATCH_OPTIMIZER_DEPTH
  }

  lemma {:induction false} DrawsDescSplit(cmds: seq<Command>, lo: nat, mid: nat, hi: nat)
    requires lo <= mid <= hi <= |cmds|
    ensures DrawsDesc(cmds, lo, hi) == DrawsDesc(cmds, mid, hi) + DrawsDesc(cmds, lo, mid)
    decreases hi - mid
  {
    if mid < hi {
      DrawsDescSplit(cmds, lo, mid, hi - 1);
    }
  }

  /** The intermediate list holds exactly the draws of [lo, hi), each once, newest first. */
  lemma DrawsDescMembers(cmds: seq<Command>, lo: nat, hi: nat)
    requires lo <= hi <= |cmds|
    ensures var d := DrawsDesc(cmds, lo, hi);
      && (forall k :: 0 <= k < |d| ==> lo <= d[k] < hi && cmds[d[k]].Draw?)
      && (forall k, l :: 0 <= k < l < |d| ==> d[k] > d[l])
      && (forall j :: lo <= j < hi && cmds[j].Draw? ==> j in d)
  {
    DrawsDescRange(cmds, lo, hi);
    DrawsDescDecreasing(cmds, lo, hi);
    DrawsDescComplete(cmds, lo, hi);
  }

  lemma {:induction false} DrawsDescRange(cmds: seq<Command>, lo: nat, hi: nat)
    requires lo <= hi <= |cmds|
    ensures forall k :: 0 <= k < |DrawsDesc(cmds, lo, hi)| ==>
      lo <= DrawsDesc(cmds, lo, hi)[k] < hi && cmds[DrawsDesc(cmds, lo, hi)[k]].Draw?
    decreases hi - lo
  {
    if lo < hi {
      DrawsDescRange(cmds, lo, hi - 1);
      var tail := DrawsDesc(cmds, lo, hi - 1);
      if cmds[hi - 1].Draw? {
        var d := [hi - 1] + tail;
        assert DrawsDesc(cmds, lo, hi) == d;
        forall k | 0 <= k < |d|
          ensures lo <= d[k] < hi && cmds[d[k]].Draw?
        {
          if k > 0 {
            assert d[k] == tail[k - 1];
          }
        }
      } else {
        assert DrawsDesc(cmds, lo, hi) == tail;
      }
    }
  }

  lemma {:induction false} DrawsDescDecreasing(cmds: seq<Command>, lo: nat, hi: nat)
    requires lo <= hi <= |cmds|
    ensures StrictlyDesc(DrawsDesc(cmds, lo, hi))
    decreases hi - lo
  {
    if lo < hi {
      DrawsDescDecreasing(cmds, lo, hi - 1);
      DrawsDescRange(cmds, lo, hi - 1);
      var tail := DrawsDesc(cmds, lo, hi - 1);
      if cmds[hi - 1].Draw? {
        assert DrawsDesc(cmds, lo, hi) == [hi - 1] + tail;
        ConsDesc(hi - 1, tail);
      } else {
        assert DrawsDesc(cmds, lo, hi) == tail;
      }
    }
  }

  predicate StrictlyDesc(s: seq<nat>)
  {
    forall k, l :: 0 <= k < l < |s| ==> s[k] > s[l]
  }

  lemma ConsDesc(x: nat, s: seq<nat>)
    requires StrictlyDesc(s) && forall k :: 0 <= k < |s| ==> s[k] < x
    ensures StrictlyDesc([x] + s)
  {
    var d := [x] + s;
    forall k, l | 0 <= k < l < |d|
      ensures d[k] > d[l]
    {
      assert d[l] == s[l - 1];
      if k > 0 {
        assert d[k] == s[k - 1];
      }
    }
  }

  lemma {:induction false} DrawsDescComplete(cmds: seq<Command>, lo: nat, hi: nat)
    requires lo <= hi <= |cmds|
    ensures forall j :: lo <= j < hi && cmds[j].Draw? ==> j in DrawsDesc(cmds, lo, hi)
    decreases hi - lo
  {
    if lo < hi {
      DrawsDescComplete(cmds, lo, hi - 1);
      var head: seq<nat> := if cmds[hi - 1].Draw? then [hi - 1] else [];
      assert DrawsDesc(cmds, lo, hi) == head + DrawsDesc(cmds, lo, hi - 1);
    }
  }

  /** Soundness and completeness of the scan from an intermediate point. */
  lemma ScanFromSpec(cmds: seq<Command>, uniforms: seq<Uniform>, base: nat, cur: nat,
                     key: DrawKey, depth: nat, lookup: nat, inters: seq<nat>)
    requires base <= cur <= |cmds|
    requires depth <= cur - base && depth <= lookup
    requires lookup - depth + |inters| == BATCH_OPTIMIZER_DEPTH
    requires Passable(cmds, uniforms, key, cur - depth, cur)
    requires inters == DrawsDesc(cmds, cur - depth, cur)
    ensures var r := ScanFrom(cmds, uniforms, base, cur, key, depth, lookup, inters);
      && |r.inters| <= BATCH_OPTIMIZER_DEPTH
      && (r.candidate.Some? ==>
            IsCandidate(cmds, uniforms, key, base, cur, r.candidate.value) &&
            r.inters == DrawsDesc(cmds, r.candidate.value + 1, cur))
    ensures forall c: nat :: c < cur - depth && IsCandidate(cmds, uniforms, key, base, cur, c) ==>
      ScanFrom(cmds, uniforms, base, cur, key, depth, lookup, inters).candidate == Some(c)
  {
    ScanFromSound(cmds, uniforms, base, cur, key, depth, lookup, inters);
    ScanFromComplete(cmds, uniforms, base, cur, key, depth, lookup, inters);
  }

  /** What the scan finds from an intermediate point is a candidate, with the draws it
      stepped over; by induction on the commands left to visit. */
  lemma {:induction false} ScanFromSound(cmds: seq<Command>, uniforms: seq<Uniform>, base: nat, cur: nat,
                                         key: DrawKey, depth: nat, lookup: nat, inters: seq<nat>)
    requires base <= cur <= |cmds|
    requires depth <= cur - base && depth <= lookup
    requires lookup - depth + |inters| == BATCH_OPTIMIZER_DEPTH
    requires Passable(cmds, uniforms, key, cur - depth, cur)
    requires inters == DrawsDesc(cmds, cur - depth, cur)
    ensures var r := ScanFrom(cmds, uniforms, base, cur, key, depth, lookup, inters);
      && |r.inters| <= BATCH_OPTIMIZER_DEPTH
      && (r.candidate.Some? ==>
            IsCandidate(cmds, uniforms, key, base, cur, r.candidate.value) &&
            r.inters == DrawsDesc(cmds, r.candidate.value + 1, cur))
    decreases cur - base - depth
  {
    var r := ScanFrom(cmds, uniforms, base, cur, key, depth, lookup, inters);
    if depth < lookup && cur - base >= depth + 1 {
      var i := cur - (depth + 1);
      if cmds[i].NoneCmd? || (cmds[i].Draw? && !Matches(cmds[i].args, key, uniforms)) {
        var lookup', inters' := ScanPasses(cmds, uniforms, base, cur, key, depth, lookup, inters);
        ScanFromSound(cmds, uniforms, base, cur, key, depth + 1, lookup', inters');
      } else if cmds[i].Draw? {
        assert r == ScanResult(Some(i), inters);
        assert i + 1 == cur - depth;
        assert IsCandidate(cmds, uniforms, key, base, cur, i);
      } else {
        assert r.candidate.None?;
      }
    } else {
      assert r == ScanResult(None, inters);
    }
  }

  /** The scan passes over a NONE command or a draw that does not match: it goes on one
      command further with the same result, and what it has seen so far is still passable and
      its intermediates are still the draws seen. */
  lemma ScanPasses(cmds: seq<Command>, uniforms: seq<Uniform>, base: nat, cur: nat,
                   key: DrawKey, depth: nat, lookup: nat, inters: seq<nat>) returns (lookup': nat, inters': seq<nat>)
    requires base <= cur <= |cmds|
    requires depth < lookup && depth + 1 <= cur - base
    requires lookup - depth + |inters| == BATCH_OPTIMIZER_DEPTH
    requires Passable(cmds, uniforms, key, cur - depth, cur)
    requires inters == DrawsDesc(cmds, cur - depth, cur)
    requires var c := cmds[cur - (depth + 1)]; c.NoneCmd? || (c.Draw? && !Matches(c.args, key, uniforms))
    ensures depth + 1 <= lookup' && lookup' - (depth + 1) + |inters'| == BATCH_OPTIMIZER_DEPTH
    ensures Passable(cmds, uniforms, key, cur - (depth + 1), cur)
    ensures inters' == DrawsDesc(cmds, cur - (depth + 1), cur)
    ensures ScanFrom(cmds, uniforms, base, cur, key, depth, lookup, inters)
      == ScanFrom(cmds, uniforms, base, cur, key, depth + 1, lookup', inters')
  {
    var i := cur - (depth + 1);
    DrawsDescStep(cmds, i, cur);
    PassableStep(cmds, uniforms, key, i, cur);
    if cmds[i].NoneCmd? {
      lookup', inters' := lookup + 1, inters;
      assert ScanFrom(cmds, uniforms, base, cur, key, depth, lookup, inters)
        == ScanFrom(cmds, uniforms, base, cur, key, depth + 1, lookup + 1, inters);
    } else {
      var a := cmds[i].args;
      assert cmds[i] == Draw(a) && !Matches(a, key, uniforms);
      lookup', inters' := lookup, inters + [i];
      assert ScanFrom(cmds, uniforms, base, cur, key, depth, lookup, inters)
        == ScanFrom(cmds, uniforms, base, cur, key, depth + 1, lookup, inters + [i]);
    }
  }

  /** A passable command in front of a passable range extends it. */
  lemma PassableStep(cmds: seq<Command>, uniforms: seq<Uniform>, key: DrawKey, i: nat, hi: nat)
    requires i < hi <= |cmds|
    requires Passable(cmds, uniforms, key, i + 1, hi)
    requires cmds[i].NoneCmd? || (cmds[i].Draw? && !Matches(cmds[i].args, key, uniforms))
    ensures Passable(cmds, uniforms, key, i, hi)
  {
  }

  /** One more command at the front of a range adds its index at the end when it is a draw. */
  lemma DrawsDescStep(cmds: seq<Command>, i: nat, hi: nat)
    requires i < hi <= |cmds|
    ensures DrawsDesc(cmds, i, hi) == DrawsDesc(cmds, i + 1, hi) + (if cmds[i].Draw? then [i] else [])
  {
    DrawsDescSplit(cmds, i, i + 1, hi);
    assert DrawsDesc(cmds, i, i + 1) == (if cmds[i].Draw? then [i] else []) + DrawsDesc(cmds, i, i);
  }

  /** A candidate below the intermediate point is what the scan finds from there; by
      induction on the commands left to visit. */
  lemma {:induction false} ScanFromComplete(cmds: seq<Command>, uniforms: seq<Uniform>, base: nat, cur: nat,
                                            key: DrawKey, depth: nat, lookup: nat, inters: seq<nat>)
    requires base <= cur <= |cmds|
    requires depth <= cur - base && depth <= lookup
    requires lookup - depth + |inters| == BATCH_OPTIMIZER_DEPTH
    requires Passable(cmds, uniforms, key, cur - depth, cur)
    requires inters == DrawsDesc(cmds, cur - depth, cur)
    ensures forall c: nat :: c < cur - depth && IsCandidate(cmds, uniforms, key, base, cur, c) ==>
      ScanFrom(cmds, uniforms, base, cur, key, depth, lookup, inters).candidate == Some(c)
    decreases cur - base - depth
  {
    if depth >= lookup || cur - base < depth + 1 {
      forall c: nat | c < cur - depth
        ensures !IsCandidate(cmds, uniforms, key, base, cur, c)
      {
        if base <= c {
          DrawsDescSplit(cmds, c + 1, cur - depth, cur);
        }
      }
    } else {
      var i := cur - (depth + 1);
      if cmds[i].NoneCmd? {
        DrawsDescStep(cmds, i, cur);
        ScanFromComplete(cmds, uniforms, base, cur, key, depth + 1, lookup + 1, inters);
        assert ScanFrom(cmds, uniforms, base, cur, key, depth, lookup, inters)
            == ScanFrom(cmds, uniforms, base, cur, key, depth + 1, lookup + 1, inters);
        assert !IsCandidate(cmds, uniforms, key, base, cur, i);
      } else if cmds[i].Draw? && !Matches(cmds[i].args, key, uniforms) {
        DrawsDescStep(cmds, i, cur);
        ScanFromComplete(cmds, uniforms, base, cur, key, depth + 1, lookup, inters + [i]);
        assert ScanFrom(cmds, uniforms, base, cur, key, depth, lookup, inters)
            == ScanFrom(cmds, uniforms, base, cur, key, depth + 1, lookup, inters + [i]);
        assert !IsCandidate(cmds, uniforms, key, base, cur, i);
      } else {
        forall c: nat | c < i
          ensures !IsCandidate(cmds, uniforms, key, base, cur, c)
        {
          assert c + 1 <= i < cur;
        }
      }
    }
  }

  /** The scan finds a candidate exactly when one exists, and then finds that one; the draws
      it stepped over are all draws between the candidate and the end of the queue. */
  lemma ScanFindsCandidate(cmds: seq<Command>, uniforms: seq<Uniform>, base: nat, cur: nat, key: DrawKey)
    requires base <= cur <= |cmds|
    ensures var r := Scan(cmds, uniforms, base, cur, key);
      && |r.inters| <= BATCH_OPTIMIZER_DEPTH
      && (r.candidate.Some? ==>
            IsCandidate(cmds, uniforms, key, base, cur, r.candidate.value) &&
            r.inters == DrawsDesc(cmds, r.candidate.value + 1, cur))
      && (forall c: nat :: IsCandidate(cmds, uniforms, key, base, cur, c) ==> r.candidate == Some(c))
  {
    ScanFromSpec(cmds, uniforms, base, cur, key, 0, BATCH_OPTIMIZER_DEPTH, []);
  }

  /** At most one command is a candidate. */
  lemma CandidateUnique(cmds: seq<Command>, uniforms: seq<Uniform>, key: DrawKey, base: nat, cur: nat, c1: nat, c2: nat)
    requires cur <= |cmds|
    requires IsCandidate(cmds, uniforms, key, base, cur, c1) && IsCandidate(cmds, uniforms, key, base, cur, c2)
    ensures c1 == c2
  {
    ScanFindsCandidate(cmds, uniforms, base, cur, key);
  }

  /** Region of a queued command; only draws have one. */
  function RegionOf(c: Command): Region
  {
    if c.Draw? then c.args.region else EMPTY_REGION
  }

  /** Some draw stepped over by the scan overlaps `r`. */
  predicate AnyOverlap(r: Region, cmds: seq<Command>, inters: seq<nat>)
  {
    exists k :: 0 <= k < |inters| && inters[k] < |cmds| && Overlaps(r, RegionOf(cmds[inters[k]]))
  }

  /** What the optimizer may assume about the queue when a draw of `n` vertices at `vi` has
      just been written: the vertices are the last ones allocated. The draws of the segment
      may use any vertices: a slot taken by a refused backward merge keeps whatever draw an
      earlier segment left there. */
  predicate MergeReady(q: Queue, base: nat, vi: nat, n: nat)
  {
    Bounded(q) && base <= q.curCommand && vi + n == q.curVertex
  }

  /** uint32 subtraction, as the source counts the vertices a forward merge moves. */
  function U32Sub(a: nat, b: nat): nat
  {
    (a - b) % 0x1_0000_0000
  }

  /** The forward merge's refusal test on the uint32 count of vertices to move is the test
      on the integers that MergeForward performs, for vertex positions that fit in 32 bits
      with room for MAX_MOVE_VERTICES more: a candidate ending past the cursor wraps around
      to a huge count and is refused. */
  lemma MoveCountWraps(cur: nat, prevEnd: nat)
    requires cur < 0x1_0000_0000 && prevEnd < 0x1_0000_0000 - MAX_MOVE_VERTICES
    ensures U32Sub(cur, prevEnd) > MAX_MOVE_VERTICES <==> (cur < prevEnd || cur - prevEnd > MAX_MOVE_VERTICES)
  {
    if cur < prevEnd {
      assert (cur - prevEnd) % 0x1_0000_0000 == 0x1_0000_0000 + (cur - prevEnd);
    } else {
      assert (cur - prevEnd) % 0x1_0000_0000 == cur - prevEnd;
    }
  }

  /** A merge only rewrites arena contents and advances cursors within their arenas. */
  predicate MergeKeeps(q: Queue, r: Queue)
  {
    Bounded(r) && |r.verts| == |q.verts| && |r.cmds| == |q.cmds| &&
    r.uniforms == q.uniforms && r.curUniform == q.curUniform &&
    q.curVertex <= r.curVertex && q.curCommand <= r.curCommand
  }

  datatype MergeResult = MergeResult(ok: bool, queue: Queue)

  /** A draw whose vertices moved `n` places up. */
  function ShiftVertexIndex(c: Command, n: nat): Command
  {
    if c.Draw? then Draw(c.args.(vertexIndex := c.args.vertexIndex + n)) else c
  }

  /** The commands with every listed draw moved `n` vertices up. */
  function Shifted(cmds: seq<Command>, inters: seq<nat>, n: nat): (r: seq<Command>)
    ensures |r| == |cmds|
  {
    seq(|cmds|, j requires 0 <= j < |cmds| => if j in inters then ShiftVertexIndex(cmds[j], n) else cmds[j])
  }

  /** The candidate grown by the new draw. */
  function Grown(prev: DrawArgs, region: Region, n: nat): DrawArgs
  {
    prev.(region := Union(prev.region, region), numVertices := prev.numVertices + n)
  }

  /** Forward merge: the new vertices are moved down to follow the candidate's, the
      vertices of the draws in between move up by `n`, and the candidate grows. A candidate
      whose vertices end past the cursor (a draw left by an earlier segment) makes the
      source's uint32 count of vertices to move wrap around, so it is refused (MoveCountWraps). */
  function MergeForward(q: Queue, base: nat, c: nat, inters: seq<nat>, region: Region, vi: nat, n: nat): (r: MergeResult)
    requires MergeReady(q, base, vi, n) && base <= c < q.curCommand && q.cmds[c].Draw?
    ensures MergeKeeps(q, r.queue)
    ensures !r.ok ==> r.queue == q
  {
    var prev := q.cmds[c].args;
    if |inters| == 0 then
      MergeResult(true, q.(cmds := q.cmds[c := Draw(Grown(prev, region, n))]))
    else if q.curVertex + n > |q.verts| then MergeResult(false, q)
    else
      var prevEnd := prev.vertexIndex + prev.numVertices;
      if q.curVertex < prevEnd || q.curVertex - prevEnd > MAX_MOVE_VERTICES then MergeResult(false, q)
      else
        MergeResult(true, q.(verts := ForwardVerts(q.verts, prevEnd, vi, n),
                             cmds := Shifted(q.cmds, inters, n)[c := Draw(Grown(prev, region, n))]))
  }

  /** The forward merge case by case, for the method that performs it: the candidate `prev`
      ends at `prevEnd`, and `moving` vertices lie between its end and the new ones. */
  lemma MergeForwardCases(q: Queue, base: nat, c: nat, inters: seq<nat>, region: Region, vi: nat, n: nat,
                          prev: DrawArgs, prevEnd: nat, moving: int)
    requires MergeReady(q, base, vi, n) && base <= c < q.curCommand && q.cmds[c].Draw?
    requires prev == q.cmds[c].args && prevEnd == prev.vertexIndex + prev.numVertices
    requires moving == q.curVertex - prevEnd
    ensures |inters| == 0 ==>
      MergeForward(q, base, c, inters, region, vi, n) == MergeResult(true, q.(cmds := q.cmds[c := Draw(Grown(prev, region, n))]))
    ensures |inters| > 0 && (q.curVertex + n > |q.verts| || moving < 0 || moving > MAX_MOVE_VERTICES) ==>
      MergeForward(q, base, c, inters, region, vi, n) == MergeResult(false, q)
    ensures |inters| > 0 && q.curVertex + n <= |q.verts| && 0 <= moving <= MAX_MOVE_VERTICES ==>
      MergeForward(q, base, c, inters, region, vi, n) ==
        MergeResult(true, q.(verts := ForwardVerts(q.verts, prevEnd, vi, n),
                             cmds := Shifted(q.cmds, inters, n)[c := Draw(Grown(prev, region, n))]))
  {
    if |inters| > 0 && q.curVertex + n <= |q.verts| && 0 <= moving <= MAX_MOVE_VERTICES {
      MergeForwardMoves(q, base, c, inters, region, vi, n, prev, prevEnd);
    }
  }

  /** The moving case of MergeForwardCases. */
  lemma MergeForwardMoves(q: Queue, base: nat, c: nat, inters: seq<nat>, region: Region, vi: nat, n: nat,
                          prev: DrawArgs, prevEnd: nat)
    requires MergeReady(q, base, vi, n) && base <= c < q.curCommand && q.cmds[c].Draw?
    requires prev == q.cmds[c].args && prevEnd == prev.vertexIndex + prev.numVertices
    requires |inters| > 0 && q.curVertex + n <= |q.verts| && prevEnd <= q.curVertex <= prevEnd + MAX_MOVE_VERTICES
    ensures MergeForward(q, base, c, inters, region, vi, n) ==
      MergeResult(true, q.(verts := ForwardVerts(q.verts, prevEnd, vi, n),
                           cmds := Shifted(q.cmds, inters, n)[c := Draw(Grown(prev, region, n))]))
  {
  }

  /** Backward merge: a command slot is taken at the end; the candidate's vertices are
      copied in front of the new ones, the new command covers both, and the candidate is
      optimized away. A refusal after the slot was taken does not give the slot back. A
      candidate whose vertices lie past the vertex arena (a draw left by an earlier segment
      and grown since) is refused too, where the source would copy from outside its buffer. */
  function MergeBackward(q: Queue, base: nat, c: nat, key: DrawKey, region: Region, vi: nat, n: nat): (r: MergeResult)
    requires MergeReady(q, base, vi, n) && base <= c < q.curCommand && q.cmds[c].Draw?
    ensures MergeKeeps(q, r.queue)
  {
    if q.curCommand >= |q.cmds| then MergeResult(false, q.(lastError := CommandsFull))
    else
      var k := q.curCommand;
      var q1 := q.(curCommand := k + 1);
      var prev := q.cmds[c].args;
      var pn := prev.numVertices;
      if q.curVertex + pn > |q.verts| || n > MAX_MOVE_VERTICES || prev.vertexIndex + pn > |q.verts| then MergeResult(false, q1)
      else
        var verts := BackwardVerts(q.verts, prev.vertexIndex, pn, vi, n);
        var merged := DrawArgs(key.pip, key.textures, Union(prev.region, region), prev.uniformIndex, vi, n + pn);
        MergeResult(true, q1.(verts := verts, curVertex := q.curVertex + pn,
                              cmds := q.cmds[k := Draw(merged)][c := NoneCmd]))
  }

  /** The backward merge case by case, for the method that performs it: `merged` is the
      command that replaces the candidate `prev`. */
  lemma MergeBackwardCases(q: Queue, base: nat, c: nat, key: DrawKey, region: Region, vi: nat, n: nat,
                           prev: DrawArgs, merged: DrawArgs)
    requires MergeReady(q, base, vi, n) && base <= c < q.curCommand && q.cmds[c].Draw?
    requires prev == q.cmds[c].args
    requires merged == DrawArgs(key.pip, key.textures, Union(prev.region, region), prev.uniformIndex, vi, n + prev.numVertices)
    ensures q.curCommand >= |q.cmds| ==>
      MergeBackward(q, base, c, key, region, vi, n) == MergeResult(false, q.(lastError := CommandsFull))
    ensures q.curCommand < |q.cmds| &&
            (q.curVertex + prev.numVertices > |q.verts| || n > MAX_MOVE_VERTICES || prev.vertexIndex + prev.numVertices > |q.verts|) ==>
      MergeBackward(q, base, c, key, region, vi, n) == MergeResult(false, q.(curCommand := q.curCommand + 1))
  {
  }

  /** The successful backward merge, for the method that performs it: `r` is the queue it
      leaves, field by field. */
  lemma MergeBackwardSucceeds(q: Queue, base: nat, c: nat, key: DrawKey, region: Region, vi: nat, n: nat,
                              prev: DrawArgs, merged: DrawArgs, r: Queue)
    requires MergeReady(q, base, vi, n) && base <= c < q.curCommand && q.cmds[c].Draw?
    requires prev == q.cmds[c].args
    requires merged == DrawArgs(key.pip, key.textures, Union(prev.region, region), prev.uniformIndex, vi, n + prev.numVertices)
    requires q.curCommand < |q.cmds| && q.curVertex + prev.numVertices <= |q.verts| && n <= MAX_MOVE_VERTICES
    requires prev.vertexIndex + prev.numVertices <= |q.verts|
    requires r == Queue(BackwardVerts(q.verts, prev.vertexIndex, prev.numVertices, vi, n), q.uniforms,
                        q.cmds[q.curCommand := Draw(merged)][c := NoneCmd],
                        q.curVertex + prev.numVertices, q.curUniform, q.curCommand + 1, q.lastError)
    ensures MergeBackward(q, base, c, key, region, vi, n) == MergeResult(true, r)
  {
  }

  /** _sgp_merge_batch_command: try to fold a just-written draw into an earlier compatible one. */
  function Merge(q: Queue, base: nat, key: DrawKey, region: Region, vi: nat, n: nat): (r: MergeResult)
    requires MergeReady(q, base, vi, n)
    ensures MergeKeeps(q, r.queue)
  {
    var s := Scan(q.cmds, q.uniforms, base, q.curCommand, key);
    ScanFindsCandidate(q.cmds, q.uniforms, base, q.curCommand, key);
    match s.candidate
    case None => MergeResult(false, q)
    case Some(c) =>
      var prevRegion := q.cmds[c].args.region;
      var overlapsNew := AnyOverlap(region, q.cmds, s.inters);
      if overlapsNew && AnyOverlap(prevRegion, q.cmds, s.inters) then MergeResult(false, q)
      else if !overlapsNew then MergeForward(q, base, c, s.inters, region, vi, n)
      else MergeBackward(q, base, c, key, region, vi, n)
  }

  /** With candidate `c` and no draw in between overlapping the new draw, the merge is
      the forward merge. */
  lemma MergeIsForward(q: Queue, base: nat, key: DrawKey, region: Region, vi: nat, n: nat, c: nat)
    requires MergeReady(q, base, vi, n)
    requires IsCandidate(q.cmds, q.uniforms, key, base, q.curCommand, c)
    requires !AnyOverlap(region, q.cmds, DrawsDesc(q.cmds, c + 1, q.curCommand))
    ensures Merge(q, base, key, region, vi, n)
      == MergeForward(q, base, c, DrawsDesc(q.cmds, c + 1, q.curCommand), region, vi, n)
  {
    ScanFindsCandidate(q.cmds, q.uniforms, base, q.curCommand, key);
    var s := Scan(q.cmds, q.uniforms, base, q.curCommand, key);
    assert s.candidate == Some(c) && s.inters == DrawsDesc(q.cmds, c + 1, q.curCommand);
  }

  /** With candidate `c`, some draw in between overlapping the new draw and none the
      candidate, the merge is the backward merge. */
  lemma MergeIsBackward(q: Queue, base: nat, key: DrawKey, region: Region, vi: nat, n: nat, c: nat)
    requires MergeReady(q, base, vi, n)
    requires IsCandidate(q.cmds, q.uniforms, key, base, q.curCommand, c)
    requires AnyOverlap(region, q.cmds, DrawsDesc(q.cmds, c + 1, q.curCommand))
    requires !AnyOverlap(q.cmds[c].args.region, q.cmds, DrawsDesc(q.cmds, c + 1, q.curCommand))
    ensures Merge(q, base, key, region, vi, n) == MergeBackward(q, base, c, key, region, vi, n)
  {
    ScanFindsCandidate(q.cmds, q.uniforms, base, q.curCommand, key);
    var s := Scan(q.cmds, q.uniforms, base, q.curCommand, key);
    assert s.candidate == Some(c) && s.inters == DrawsDesc(q.cmds, c + 1, q.curCommand);
  }

  /** The two block moves of a forward merge. With the candidate's vertices ending at
      `prevEnd`, at or before the cursor `vi + n`, everything before `prevEnd` and past the
      scratch area stays. When the candidate ends before the new block [vi, vi+n), that block
      ends up right after it and the block in between moves up by `n`; the area past the
      cursor keeps a scratch copy of the new block. */
  function ForwardVerts<T>(s: seq<T>, prevEnd: nat, vi: nat, n: nat): (m: seq<T>)
    requires prevEnd <= vi + n && vi + 2 * n <= |s|
    ensures |m| == |s|
  {
    Moved(Moved(s, prevEnd + n, prevEnd, vi + n - prevEnd), prevEnd, vi + n, n)
  }

  /** The layout ForwardVerts leaves. */
  lemma ForwardVertsLayout<T>(s: seq<T>, prevEnd: nat, vi: nat, n: nat)
    requires prevEnd <= vi + n && vi + 2 * n <= |s|
    ensures var m := ForwardVerts(s, prevEnd, vi, n);
      && m[..prevEnd] == s[..prevEnd]
      && m[vi + 2 * n..] == s[vi + 2 * n..]
      && (prevEnd <= vi ==> m[..vi + n] == s[..prevEnd] + s[vi..vi + n] + s[prevEnd..vi])
      && (prevEnd <= vi ==> m[vi + n..vi + 2 * n] == s[vi..vi + n])
  {
    var m := ForwardVerts(s, prevEnd, vi, n);
    MovedReads(s, prevEnd + n, prevEnd, vi + n - prevEnd);
    MovedReads(Moved(s, prevEnd + n, prevEnd, vi + n - prevEnd), prevEnd, vi + n, n);
    ForwardMoveLayout(s, prevEnd, vi, n, m);
    MovedKeeps(s, m, prevEnd, vi + 2 * n);
  }

  /** Two block moves within [lo, hi) leave the rest as it was. */
  lemma MovedKeeps<T>(s: seq<T>, m: seq<T>, lo: nat, hi: nat)
    requires lo <= hi <= |s| == |m|
    requires forall i :: 0 <= i < |s| && !(lo <= i < hi) ==> m[i] == s[i]
    ensures m[..lo] == s[..lo] && m[hi..] == s[hi..]
  {
    assert forall i :: 0 <= i < lo ==> m[..lo][i] == s[..lo][i];
    assert forall i :: 0 <= i < |s| - hi ==> m[hi..][i] == s[hi..][i];
  }

  lemma ForwardMoveLayout<T>(s: seq<T>, prevEnd: nat, vi: nat, n: nat, m: seq<T>)
    requires prevEnd <= vi + n && vi + 2 * n <= |s|
    requires m == Moved(Moved(s, prevEnd + n, prevEnd, vi + n - prevEnd), prevEnd, vi + n, n)
    ensures prevEnd <= vi ==> m[..vi + n] == s[..prevEnd] + s[vi..vi + n] + s[prevEnd..vi]
    ensures prevEnd <= vi ==> m[vi + n..vi + 2 * n] == s[vi..vi + n]
  {
    if prevEnd <= vi {
      ForwardLayout(s, prevEnd, vi, n, m);
    }
  }

  lemma ForwardLayout<T>(s: seq<T>, prevEnd: nat, vi: nat, n: nat, m: seq<T>)
    requires prevEnd <= vi && vi + 2 * n <= |s|
    requires m == Moved(Moved(s, prevEnd + n, prevEnd, vi + n - prevEnd), prevEnd, vi + n, n)
    ensures m[..vi + n] == s[..prevEnd] + s[vi..vi + n] + s[prevEnd..vi]
    ensures m[vi + n..vi + 2 * n] == s[vi..vi + n]
  {
    forall i | 0 <= i < vi + 2 * n
      ensures i < prevEnd ==> m[i] == s[i]
      ensures prevEnd <= i < prevEnd + n ==> m[i] == s[vi + (i - prevEnd)]
      ensures prevEnd + n <= i ==> m[i] == s[i - n]
    {
      ForwardAt(s, prevEnd, vi, n, i);
    }
  }

  /** One element of the forward-merge layout. */
  lemma ForwardAt<T>(s: seq<T>, prevEnd: nat, vi: nat, n: nat, i: nat)
    requires prevEnd <= vi && vi + 2 * n <= |s| && i < vi + 2 * n
    ensures var m := Moved(Moved(s, prevEnd + n, prevEnd, vi + n - prevEnd), prevEnd, vi + n, n);
      && (i < prevEnd ==> m[i] == s[i])
      && (prevEnd <= i < prevEnd + n ==> m[i] == s[vi + (i - prevEnd)])
      && (prevEnd + n <= i ==> m[i] == s[i - n])
  {
    var m1 := Moved(s, prevEnd + n, prevEnd, vi + n - prevEnd);
    MovedAt(m1, prevEnd, vi + n, n, i);
    if prevEnd <= i < prevEnd + n {
      MovedAt(s, prevEnd + n, prevEnd, vi + n - prevEnd, vi + n + (i - prevEnd));
    } else {
      MovedAt(s, prevEnd + n, prevEnd, vi + n - prevEnd, i);
    }
  }

  /** The two block moves of a backward merge: the new block [vi, vi+n) moves up by `pn`
      and the candidate's block [pvi, pvi+pn) is copied in front of it; that copy reads the
      candidate's vertices when they lie before the new block (an overlapping copy is taken
      as a memmove of the arena after the first move). */
  function BackwardVerts<T>(s: seq<T>, pvi: nat, pn: nat, vi: nat, n: nat): (m: seq<T>)
    requires pvi + pn <= |s| && vi + pn + n <= |s|
    ensures |m| == |s|
  {
    Moved(Moved(s, vi + pn, vi, n), vi, pvi, pn)
  }

  /** The layout BackwardVerts leaves. */
  lemma BackwardVertsLayout<T>(s: seq<T>, pvi: nat, pn: nat, vi: nat, n: nat)
    requires pvi + pn <= |s| && vi + pn + n <= |s|
    ensures var m := BackwardVerts(s, pvi, pn, vi, n);
      && m[..vi] == s[..vi]
      && m[vi + pn..vi + pn + n] == s[vi..vi + n]
      && m[vi + pn + n..] == s[vi + pn + n..]
      && (pvi + pn <= vi ==> m[vi..vi + pn + n] == s[pvi..pvi + pn] + s[vi..vi + n])
  {
    var m := BackwardVerts(s, pvi, pn, vi, n);
    MovedReads(s, vi + pn, vi, n);
    MovedReads(Moved(s, vi + pn, vi, n), vi, pvi, pn);
    BackwardMoveLayout(s, pvi, pn, vi, n, m);
    MovedKeeps(s, m, vi, vi + pn + n);
    BackwardNewBlock(s, pvi, pn, vi, n, m);
  }

  lemma BackwardNewBlock<T>(s: seq<T>, pvi: nat, pn: nat, vi: nat, n: nat, m: seq<T>)
    requires pvi + pn <= |s| && vi + pn + n <= |s|
    requires m == Moved(Moved(s, vi + pn, vi, n), vi, pvi, pn)
    ensures m[vi + pn..vi + pn + n] == s[vi..vi + n]
  {
    MovedReads(s, vi + pn, vi, n);
    MovedReads(Moved(s, vi + pn, vi, n), vi, pvi, pn);
    forall t | vi + pn <= t < vi + pn + n
      ensures m[t] == s[t - pn]
    {
    }
  }

  lemma BackwardMoveLayout<T>(s: seq<T>, pvi: nat, pn: nat, vi: nat, n: nat, m: seq<T>)
    requires pvi + pn <= |s| && vi + pn + n <= |s|
    requires m == Moved(Moved(s, vi + pn, vi, n), vi, pvi, pn)
    ensures pvi + pn <= vi ==> m[vi..vi + pn + n] == s[pvi..pvi + pn] + s[vi..vi + n]
  {
    if pvi + pn <= vi {
      BackwardLayout(s, pvi, pn, vi, n, m);
    }
  }

  lemma BackwardLayout<T>(s: seq<T>, pvi: nat, pn: nat, vi: nat, n: nat, m: seq<T>)
    requires pvi + pn <= vi && vi + pn + n <= |s|
    requires m == Moved(Moved(s, vi + pn, vi, n), vi, pvi, pn)
    ensures m[vi..vi + pn + n] == s[pvi..pvi + pn] + s[vi..vi + n]
  {
    var m1 := Moved(s, vi + pn, vi, n);
    MovedReads(s, vi + pn, vi, n);
    MovedReads(m1, vi, pvi, pn);
    var block := s[pvi..pvi + pn] + s[vi..vi + n];
    forall i | 0 <= i < pn + n
      ensures m[vi + i] == block[i]
    {
      if i < pn {
        assert m[vi + i] == m1[pvi + i];
      }
    }
    assert m[vi..vi + pn + n] == block;
  }

  /** Without a candidate, or when some draw in between overlaps both the new draw and the
      candidate, the merge is refused and nothing changes: reordering either draw past that
      one would change what is painted on top. */
  lemma MergeRefused(q: Queue, base: nat, key: DrawKey, region: Region, vi: nat, n: nat)
    requires MergeReady(q, base, vi, n)
    requires (forall c: nat :: !IsCandidate(q.cmds, q.uniforms, key, base, q.curCommand, c))
      || (exists c: nat :: IsCandidate(q.cmds, q.uniforms, key, base, q.curCommand, c)
            && AnyOverlap(region, q.cmds, DrawsDesc(q.cmds, c + 1, q.curCommand))
            && AnyOverlap(q.cmds[c].args.region, q.cmds, DrawsDesc(q.cmds, c + 1, q.curCommand)))
    ensures Merge(q, base, key, region, vi, n) == MergeResult(false, q)
  {
    var s := Scan(q.cmds, q.uniforms, base, q.curCommand, key);
    ScanFindsCandidate(q.cmds, q.uniforms, base, q.curCommand, key);
    if s.candidate.Some? {
      var c := s.candidate.value;
      assert IsCandidate(q.cmds, q.uniforms, key, base, q.curCommand, c);
      var c': nat :| IsCandidate(q.cmds, q.uniforms, key, base, q.curCommand, c')
            && AnyOverlap(region, q.cmds, DrawsDesc(q.cmds, c' + 1, q.curCommand))
            && AnyOverlap(q.cmds[c'].args.region, q.cmds, DrawsDesc(q.cmds, c' + 1, q.curCommand));
      assert c' == c && s.inters == DrawsDesc(q.cmds, c + 1, q.curCommand);
    }
  }

  /** Forward merge: when no draw in between overlaps the new draw, the new vertices join the
      candidate's. It is refused only for lack of vertex room or when more than
      MAX_MOVE_VERTICES vertices would have to move; on success the candidate covers both
      draws, the draws in between are shifted up by `n`, and their vertices with them. */
  lemma ForwardMerge(q: Queue, base: nat, key: DrawKey, region: Region, vi: nat, n: nat, c: nat)
    requires MergeReady(q, base, vi, n)
    requires IsCandidate(q.cmds, q.uniforms, key, base, q.curCommand, c)
    requires !AnyOverlap(region, q.cmds, DrawsDesc(q.cmds, c + 1, q.curCommand))
    ensures var r := Merge(q, base, key, region, vi, n);
      var inters := DrawsDesc(q.cmds, c + 1, q.curCommand);
      var prev := q.cmds[c].args;
      var prevEnd := prev.vertexIndex + prev.numVertices;
      && (r.ok <==>
            || |inters| == 0
            || (q.curVertex + n <= |q.verts| && prevEnd <= q.curVertex && q.curVertex - prevEnd <= MAX_MOVE_VERTICES))
      && (!r.ok ==> r.queue == q)
      && (r.ok ==>
            && r.queue.curVertex == q.curVertex && r.queue.curCommand == q.curCommand
            && r.queue.lastError == q.lastError
            && r.queue.cmds[c] == Draw(Grown(prev, region, n))
            && (forall j :: 0 <= j < |q.cmds| && j != c ==>
                  r.queue.cmds[j] == if j in inters then ShiftVertexIndex(q.cmds[j], n) else q.cmds[j])
            && (|inters| == 0 ==> r.queue.verts == q.verts)
            && (|inters| > 0 ==> r.queue.verts[..prevEnd] == q.verts[..prevEnd])
            && (|inters| > 0 && prevEnd <= vi ==>
                  r.queue.verts[..q.curVertex] == q.verts[..prevEnd] + q.verts[vi..q.curVertex] + q.verts[prevEnd..vi]))
  {
    var inters := DrawsDesc(q.cmds, c + 1, q.curCommand);
    MergeIsForward(q, base, key, region, vi, n, c);
    MergeForwardSteps(q, base, c, inters, region, vi, n);
  }

  lemma MergeForwardSteps(q: Queue, base: nat, c: nat, inters: seq<nat>, region: Region, vi: nat, n: nat)
    requires MergeReady(q, base, vi, n) && base <= c < q.curCommand && q.cmds[c].Draw?
    ensures var r := MergeForward(q, base, c, inters, region, vi, n);
      var prev := q.cmds[c].args;
      var prevEnd := prev.vertexIndex + prev.numVertices;
      && (r.ok <==>
            || |inters| == 0
            || (q.curVertex + n <= |q.verts| && prevEnd <= q.curVertex && q.curVertex - prevEnd <= MAX_MOVE_VERTICES))
      && (r.ok ==>
            && r.queue.curVertex == q.curVertex && r.queue.curCommand == q.curCommand
            && r.queue.lastError == q.lastError
            && r.queue.cmds[c] == Draw(Grown(prev, region, n))
            && (forall j :: 0 <= j < |q.cmds| && j != c ==>
                  r.queue.cmds[j] == if j in inters then ShiftVertexIndex(q.cmds[j], n) else q.cmds[j])
            && (|inters| == 0 ==> r.queue.verts == q.verts)
            && (|inters| > 0 ==> r.queue.verts[..prevEnd] == q.verts[..prevEnd])
            && (|inters| > 0 && prevEnd <= vi ==>
                  r.queue.verts[..q.curVertex] == q.verts[..prevEnd] + q.verts[vi..q.curVertex] + q.verts[prevEnd..vi]))
  {
    var prev := q.cmds[c].args;
    var prevEnd := prev.vertexIndex + prev.numVertices;
    MergeForwardCases(q, base, c, inters, region, vi, n, prev, prevEnd, q.curVertex - prevEnd);
    MergeForwardShifts(q, base, c, inters, region, vi, n);
    MergeForwardVerts(q, base, c, inters, region, vi, n);
  }

  /** The commands after a forward merge: the candidate grows, the draws in between shift. */
  lemma MergeForwardShifts(q: Queue, base: nat, c: nat, inters: seq<nat>, region: Region, vi: nat, n: nat)
    requires MergeReady(q, base, vi, n) && base <= c < q.curCommand && q.cmds[c].Draw?
    ensures var r := MergeForward(q, base, c, inters, region, vi, n);
      r.ok ==> forall j :: 0 <= j < |q.cmds| && j != c ==>
                 r.queue.cmds[j] == if j in inters then ShiftVertexIndex(q.cmds[j], n) else q.cmds[j]
  {
    var prev := q.cmds[c].args;
    var prevEnd := prev.vertexIndex + prev.numVertices;
    MergeForwardCases(q, base, c, inters, region, vi, n, prev, prevEnd, q.curVertex - prevEnd);
  }

  /** The vertices after a forward merge: unchanged without draws in between, otherwise the
      new block follows the candidate's and the block in between moves up. */
  lemma MergeForwardVerts(q: Queue, base: nat, c: nat, inters: seq<nat>, region: Region, vi: nat, n: nat)
    requires MergeReady(q, base, vi, n) && base <= c < q.curCommand && q.cmds[c].Draw?
    ensures var r := MergeForward(q, base, c, inters, region, vi, n);
      var prev := q.cmds[c].args;
      var prevEnd := prev.vertexIndex + prev.numVertices;
      && (r.ok && |inters| == 0 ==> r.queue.verts == q.verts)
      && (r.ok && |inters| > 0 ==> r.queue.verts[..prevEnd] == q.verts[..prevEnd])
      && (r.ok && |inters| > 0 && prevEnd <= vi ==>
            r.queue.verts[..q.curVertex] == q.verts[..prevEnd] + q.verts[vi..q.curVertex] + q.verts[prevEnd..vi])
  {
    var prev := q.cmds[c].args;
    var prevEnd := prev.vertexIndex + prev.numVertices;
    if |inters| == 0 {
      MergeForwardCases(q, base, c, inters, region, vi, n, prev, prevEnd, q.curVertex - prevEnd);
    } else if q.curVertex + n <= |q.verts| && prevEnd <= q.curVertex <= prevEnd + MAX_MOVE_VERTICES {
      MergeForwardMovesVerts(q, base, c, inters, region, vi, n, prevEnd);
    } else {
      MergeForwardRefused(q, base, c, inters, region, vi, n);
    }
  }

  /** The vertices of the moving case of MergeForwardVerts. */
  lemma MergeForwardMovesVerts(q: Queue, base: nat, c: nat, inters: seq<nat>, region: Region, vi: nat, n: nat, prevEnd: nat)
    requires MergeReady(q, base, vi, n) && base <= c < q.curCommand && q.cmds[c].Draw?
    requires prevEnd == q.cmds[c].args.vertexIndex + q.cmds[c].args.numVertices
    requires |inters| > 0 && q.curVertex + n <= |q.verts| && prevEnd <= q.curVertex <= prevEnd + MAX_MOVE_VERTICES
    ensures var v := MergeForward(q, base, c, inters, region, vi, n).queue.verts;
      && v[..prevEnd] == q.verts[..prevEnd]
      && (prevEnd <= vi ==> v[..q.curVertex] == q.verts[..prevEnd] + q.verts[vi..q.curVertex] + q.verts[prevEnd..vi])
  {
    MergeForwardMovedVerts(q, base, c, inters, region, vi, n, prevEnd);
    ForwardVertsLayout(q.verts, prevEnd, vi, n);
  }

  /** The vertex arena in the moving case of MergeForwardCases. */
  lemma MergeForwardMovedVerts(q: Queue, base: nat, c: nat, inters: seq<nat>, region: Region, vi: nat, n: nat, prevEnd: nat)
    requires MergeReady(q, base, vi, n) && base <= c < q.curCommand && q.cmds[c].Draw?
    requires prevEnd == q.cmds[c].args.vertexIndex + q.cmds[c].args.numVertices
    requires |inters| > 0 && q.curVertex + n <= |q.verts| && prevEnd <= q.curVertex <= prevEnd + MAX_MOVE_VERTICES
    ensures MergeForward(q, base, c, inters, region, vi, n).queue.verts == ForwardVerts(q.verts, prevEnd, vi, n)
  {
  }

  /** The refusing case of MergeForwardCases. */
  lemma MergeForwardRefused(q: Queue, base: nat, c: nat, inters: seq<nat>, region: Region, vi: nat, n: nat)
    requires MergeReady(q, base, vi, n) && base <= c < q.curCommand && q.cmds[c].Draw?
    requires var prevEnd := q.cmds[c].args.vertexIndex + q.cmds[c].args.numVertices;
      |inters| > 0 && !(q.curVertex + n <= |q.verts| && prevEnd <= q.curVertex <= prevEnd + MAX_MOVE_VERTICES)
    ensures !MergeForward(q, base, c, inters, region, vi, n).ok
  {
  }

  /** Backward merge: when draws in between overlap the new draw but none overlaps the
      candidate, the candidate moves to the end of the queue. A command slot is taken first;
      if that fails the error is COMMANDS_FULL. A later refusal keeps the slot taken with its
      previous contents. On success the new command draws the candidate's vertices followed
      by the new ones, with the candidate's uniform, and the candidate is optimized away. */
  lemma BackwardMerge(q: Queue, base: nat, key: DrawKey, region: Region, vi: nat, n: nat, c: nat)
    requires MergeReady(q, base, vi, n)
    requires IsCandidate(q.cmds, q.uniforms, key, base, q.curCommand, c)
    requires AnyOverlap(region, q.cmds, DrawsDesc(q.cmds, c + 1, q.curCommand))
    requires !AnyOverlap(q.cmds[c].args.region, q.cmds, DrawsDesc(q.cmds, c + 1, q.curCommand))
    ensures var r := Merge(q, base, key, region, vi, n);
      var prev := q.cmds[c].args;
      var k := q.curCommand;
      && (k >= |q.cmds| ==> r == MergeResult(false, q.(lastError := CommandsFull)))
      && (k < |q.cmds| ==>
            && r.queue.curCommand == k + 1
            && (r.ok <==> q.curVertex + prev.numVertices <= |q.verts| && n <= MAX_MOVE_VERTICES &&
                          prev.vertexIndex + prev.numVertices <= |q.verts|)
            && (!r.ok ==> r.queue == q.(curCommand := k + 1))
            && (r.ok ==>
                  && r.queue.curVertex == q.curVertex + prev.numVertices
                  && r.queue.cmds == q.cmds[k := Draw(DrawArgs(key.pip, key.textures, Union(prev.region, region),
                                                               prev.uniformIndex, vi, n + prev.numVertices))][c := NoneCmd]
                  && r.queue.verts[..vi] == q.verts[..vi]
                  && r.queue.verts[vi + prev.numVertices..vi + prev.numVertices + n] == q.verts[vi..vi + n]
                  && (prev.vertexIndex + prev.numVertices <= vi ==>
                        r.queue.verts[vi..vi + prev.numVertices + n]
                          == q.verts[prev.vertexIndex..prev.vertexIndex + prev.numVertices] + q.verts[vi..vi + n])))
  {
    MergeIsBackward(q, base, key, region, vi, n, c);
    var prev := q.cmds[c].args;
    if q.curVertex + prev.numVertices <= |q.verts| && prev.vertexIndex + prev.numVertices <= |q.verts| {
      BackwardVertsLayout(q.verts, prev.vertexIndex, prev.numVertices, vi, n);
    }
  }

  /** The vertices a command draws: the span of a draw, nothing for any other command. */
  function DrawnVertices(verts: seq<Vertex>, c: Command): seq<Vertex>
  {
    if c.Draw? && c.args.vertexIndex + c.args.numVertices <= |verts|
    then verts[c.args.vertexIndex..c.args.vertexIndex + c.args.numVertices]
    else []
  }

  /** Reading the forward-merge layout back: the candidate's block is followed by the new
      block, and any block between the two is found `n` places further up. */
  lemma ForwardLayoutReads<T>(s: seq<T>, m: seq<T>, pvi: nat, prevEnd: nat, vi: nat, n: nat, lo: nat, hi: nat)
    requires pvi <= prevEnd <= lo <= hi <= vi && vi + n <= |s| && vi + n <= |m|
    requires m[..vi + n] == s[..prevEnd] + s[vi..vi + n] + s[prevEnd..vi]
    ensures m[pvi..prevEnd + n] == s[pvi..prevEnd] + s[vi..vi + n]
    ensures m[lo + n..hi + n] == s[lo..hi]
  {
    var layout := s[..prevEnd] + s[vi..vi + n] + s[prevEnd..vi];
    forall t | pvi <= t < prevEnd + n
      ensures m[t] == (s[pvi..prevEnd] + s[vi..vi + n])[t - pvi]
    {
      assert m[t] == layout[t];
    }
    forall t | lo + n <= t < hi + n
      ensures m[t] == s[t - n]
    {
      assert m[t] == layout[t];
    }
  }

  lemma ShiftedDrawReads(s: seq<Vertex>, m: seq<Vertex>, cs: Command, cm: Command, pvi: nat, prevEnd: nat, vi: nat, n: nat)
    requires pvi <= prevEnd <= vi && vi + n <= |s| == |m|
    requires m[..vi + n] == s[..prevEnd] + s[vi..vi + n] + s[prevEnd..vi]
    requires cs.Draw? && cm == ShiftVertexIndex(cs, n)
    requires prevEnd <= cs.args.vertexIndex && cs.args.vertexIndex + cs.args.numVertices <= vi
    ensures DrawnVertices(m, cm) == DrawnVertices(s, cs)
  {
    var a := cs.args;
    ForwardLayoutReads(s, m, pvi, prevEnd, vi, n, a.vertexIndex, a.vertexIndex + a.numVertices);
  }

  /** A forward merge that moves vertices keeps every picture intact when the draws of the
      segment all use vertices before the new ones: the candidate now draws its own vertices
      followed by the new draw's, and each draw in between whose vertices lie between the two
      still draws the same vertices. */
  lemma ForwardMergeDrawsBoth(q: Queue, base: nat, key: DrawKey, region: Region, vi: nat, n: nat, c: nat)
    requires MergeReady(q, base, vi, n) && SpansBelow(q.cmds, base, q.curCommand, vi)
    requires IsCandidate(q.cmds, q.uniforms, key, base, q.curCommand, c)
    requires !AnyOverlap(region, q.cmds, DrawsDesc(q.cmds, c + 1, q.curCommand))
    requires |DrawsDesc(q.cmds, c + 1, q.curCommand)| > 0
    requires Merge(q, base, key, region, vi, n).ok
    ensures var r := Merge(q, base, key, region, vi, n).queue;
      var prev := q.cmds[c].args;
      && DrawnVertices(r.verts, r.cmds[c]) == DrawnVertices(q.verts, q.cmds[c]) + q.verts[vi..vi + n]
      && forall j ::
           (c < j < q.curCommand && q.cmds[j].Draw? && prev.vertexIndex + prev.numVertices <= q.cmds[j].args.vertexIndex)
           ==> DrawnVertices(r.verts, r.cmds[j]) == DrawnVertices(q.verts, q.cmds[j])
  {
    var r := Merge(q, base, key, region, vi, n).queue;
    var inters := DrawsDesc(q.cmds, c + 1, q.curCommand);
    var prev := q.cmds[c].args;
    var pvi, prevEnd := prev.vertexIndex, prev.vertexIndex + prev.numVertices;
    ForwardMerge(q, base, key, region, vi, n, c);
    assert prevEnd <= vi;
    assert q.curVertex == vi + n && |r.verts| == |q.verts| && |r.cmds| == |q.cmds|;
    assert r.verts[..vi + n] == q.verts[..prevEnd] + q.verts[vi..vi + n] + q.verts[prevEnd..vi];
    assert r.cmds[c] == Draw(Grown(prev, region, n));
    assert SpansBelow(q.cmds, c, q.curCommand, vi);
    ForwardReads(q, r, c, inters, pvi, prevEnd, vi, n, region);
  }

  /** The vertices each draw reads after a forward merge that moved vertices, from the
      layout of the moved block and the grown and shifted commands. */
  lemma ForwardReads(q: Queue, r: Queue, c: nat, inters: seq<nat>, pvi: nat, prevEnd: nat, vi: nat, n: nat, region: Region)
    requires pvi <= prevEnd <= vi && vi + n <= |q.verts| == |r.verts|
    requires c < q.curCommand <= |q.cmds| == |r.cmds|
    requires q.cmds[c].Draw? && pvi == q.cmds[c].args.vertexIndex && prevEnd == pvi + q.cmds[c].args.numVertices
    requires r.verts[..vi + n] == q.verts[..prevEnd] + q.verts[vi..vi + n] + q.verts[prevEnd..vi]
    requires r.cmds[c] == Draw(Grown(q.cmds[c].args, region, n))
    requires forall j :: 0 <= j < |q.cmds| && j != c ==>
      r.cmds[j] == if j in inters then ShiftVertexIndex(q.cmds[j], n) else q.cmds[j]
    requires inters == DrawsDesc(q.cmds, c + 1, q.curCommand)
    requires SpansBelow(q.cmds, c, q.curCommand, vi)
    ensures DrawnVertices(r.verts, r.cmds[c]) == DrawnVertices(q.verts, q.cmds[c]) + q.verts[vi..vi + n]
    ensures forall j ::
      (c < j < q.curCommand && q.cmds[j].Draw? && prevEnd <= q.cmds[j].args.vertexIndex)
      ==> DrawnVertices(r.verts, r.cmds[j]) == DrawnVertices(q.verts, q.cmds[j])
  {
    ForwardLayoutReads(q.verts, r.verts, pvi, prevEnd, vi, n, prevEnd, prevEnd);
    DrawsDescComplete(q.cmds, c + 1, q.curCommand);
    ForwardBetweenReads(q, r, c, inters, pvi, prevEnd, vi, n);
  }

  /** The draws between the candidate and the new draw read the same vertices after a
      forward merge that moved them. */
  lemma ForwardBetweenReads(q: Queue, r: Queue, c: nat, inters: seq<nat>, pvi: nat, prevEnd: nat, vi: nat, n: nat)
    requires pvi <= prevEnd <= vi && vi + n <= |q.verts| == |r.verts|
    requires c < q.curCommand <= |q.cmds| == |r.cmds|
    requires r.verts[..vi + n] == q.verts[..prevEnd] + q.verts[vi..vi + n] + q.verts[prevEnd..vi]
    requires forall j :: 0 <= j < |q.cmds| && j != c ==>
      r.cmds[j] == if j in inters then ShiftVertexIndex(q.cmds[j], n) else q.cmds[j]
    requires forall j :: c < j < q.curCommand && q.cmds[j].Draw? ==> j in inters
    requires SpansBelow(q.cmds, c, q.curCommand, vi)
    ensures forall j ::
      (c < j < q.curCommand && q.cmds[j].Draw? && prevEnd <= q.cmds[j].args.vertexIndex)
      ==> DrawnVertices(r.verts, r.cmds[j]) == DrawnVertices(q.verts, q.cmds[j])
  {
    forall j | c < j < q.curCommand && q.cmds[j].Draw? && prevEnd <= q.cmds[j].args.vertexIndex
      ensures DrawnVertices(r.verts, r.cmds[j]) == DrawnVertices(q.verts, q.cmds[j])
    {
      ShiftedDrawReads(q.verts, r.verts, q.cmds[j], r.cmds[j], pvi, prevEnd, vi, n);
    }
  }

  /** A forward merge with no draw in between moves no vertex: the candidate is extended over
      the `n` vertices that follow its own. Those are the new draw's only when the candidate's
      vertices end where the new draw's begin; after vertices were claimed and left unused
      (ZeroSizedImageLeaksVertices) the candidate grows over those instead. */
  lemma ForwardMergeExtendsInPlace(q: Queue, base: nat, key: DrawKey, region: Region, vi: nat, n: nat, c: nat)
    requires MergeReady(q, base, vi, n)
    requires IsCandidate(q.cmds, q.uniforms, key, base, q.curCommand, c)
    requires |DrawsDesc(q.cmds, c + 1, q.curCommand)| == 0
    ensures var r := Merge(q, base, key, region, vi, n);
      var prev := q.cmds[c].args;
      var prevEnd := prev.vertexIndex + prev.numVertices;
      && r.ok && r.queue.verts == q.verts && r.queue.cmds == q.cmds[c := Draw(Grown(prev, region, n))]
      && (prevEnd + n <= |q.verts| ==>
            DrawnVertices(r.queue.verts, r.queue.cmds[c]) == DrawnVertices(q.verts, q.cmds[c]) + q.verts[prevEnd..prevEnd + n])
      && (prevEnd == vi ==> DrawnVertices(r.queue.verts, r.queue.cmds[c]) == DrawnVertices(q.verts, q.cmds[c]) + q.verts[vi..vi + n])
  {
    var prev := q.cmds[c].args;
    var prevEnd := prev.vertexIndex + prev.numVertices;
    MergeInPlace(q, base, key, region, vi, n, c);
    var r := Merge(q, base, key, region, vi, n).queue;
    assert r.verts == q.verts && r.cmds[c] == Draw(Grown(prev, region, n));
    assert q.cmds[c] == Draw(prev);
    if prevEnd + n <= |q.verts| {
      GrownReads(q.verts, prev, region, n);
      assert DrawnVertices(r.verts, r.cmds[c]) == DrawnVertices(q.verts, q.cmds[c]) + q.verts[prevEnd..prevEnd + n];
    }
  }

  /** The merge with no draw in between, as one queue. */
  lemma MergeInPlace(q: Queue, base: nat, key: DrawKey, region: Region, vi: nat, n: nat, c: nat)
    requires MergeReady(q, base, vi, n)
    requires IsCandidate(q.cmds, q.uniforms, key, base, q.curCommand, c)
    requires |DrawsDesc(q.cmds, c + 1, q.curCommand)| == 0
    ensures Merge(q, base, key, region, vi, n) == MergeResult(true, q.(cmds := q.cmds[c := Draw(Grown(q.cmds[c].args, region, n))]))
  {
    MergeIsForward(q, base, key, region, vi, n, c);
  }

  /** A grown draw reads its own vertices followed by the `n` after them. */
  lemma GrownReads(verts: seq<Vertex>, prev: DrawArgs, region: Region, n: nat)
    requires prev.vertexIndex + prev.numVertices + n <= |verts|
    ensures var prevEnd := prev.vertexIndex + prev.numVertices;
      DrawnVertices(verts, Draw(Grown(prev, region, n))) == DrawnVertices(verts, Draw(prev)) + verts[prevEnd..prevEnd + n]
  {
    var prevEnd := prev.vertexIndex + prev.numVertices;
    var g := Grown(prev, region, n);
    assert g.vertexIndex == prev.vertexIndex && g.vertexIndex + g.numVertices == prevEnd + n;
    assert verts[prev.vertexIndex..prevEnd + n] == verts[prev.vertexIndex..prevEnd] + verts[prevEnd..prevEnd + n];
  }

  /** A backward merge keeps every picture intact when the draws of the segment all use
      vertices before the new ones: the new command draws the candidate's vertices followed by
      the new draw's, and every other draw of the segment still draws the same vertices. */
  lemma BackwardMergeDrawsBoth(q: Queue, base: nat, key: DrawKey, region: Region, vi: nat, n: nat, c: nat)
    requires MergeReady(q, base, vi, n) && SpansBelow(q.cmds, base, q.curCommand, vi)
    requires IsCandidate(q.cmds, q.uniforms, key, base, q.curCommand, c)
    requires AnyOverlap(region, q.cmds, DrawsDesc(q.cmds, c + 1, q.curCommand))
    requires !AnyOverlap(q.cmds[c].args.region, q.cmds, DrawsDesc(q.cmds, c + 1, q.curCommand))
    requires Merge(q, base, key, region, vi, n).ok
    ensures var r := Merge(q, base, key, region, vi, n).queue;
      && q.curCommand < |q.cmds|
      && DrawnVertices(r.verts, r.cmds[q.curCommand]) == DrawnVertices(q.verts, q.cmds[c]) + q.verts[vi..vi + n]
      && DrawnVertices(r.verts, r.cmds[c]) == []
      && forall j :: base <= j < q.curCommand && j != c ==>
           DrawnVertices(r.verts, r.cmds[j]) == DrawnVertices(q.verts, q.cmds[j])
  {
    var r := Merge(q, base, key, region, vi, n).queue;
    BackwardMerge(q, base, key, region, vi, n, c);
    var prev := q.cmds[c].args;
    BackwardReads(q, r, base, c, vi, n, prev, r.cmds[q.curCommand].args);
  }

  /** The vertices each draw reads after a backward merge, from the layout of the copied
      blocks and the new and cleared commands. */
  lemma BackwardReads(q: Queue, r: Queue, base: nat, c: nat, vi: nat, n: nat, prev: DrawArgs, merged: DrawArgs)
    requires base <= c < q.curCommand < |q.cmds| && vi + prev.numVertices + n <= |r.verts|
    requires q.cmds[c].Draw? && prev == q.cmds[c].args
    requires merged.vertexIndex == vi && merged.numVertices == n + prev.numVertices
    requires prev.vertexIndex + prev.numVertices <= vi && vi + n <= |q.verts|
    requires r.cmds == q.cmds[q.curCommand := Draw(merged)][c := NoneCmd]
    requires r.verts[..vi] == q.verts[..vi]
    requires r.verts[vi..vi + prev.numVertices + n] == q.verts[prev.vertexIndex..prev.vertexIndex + prev.numVertices] + q.verts[vi..vi + n]
    requires SpansBelow(q.cmds, base, q.curCommand, vi)
    ensures DrawnVertices(r.verts, r.cmds[q.curCommand]) == DrawnVertices(q.verts, q.cmds[c]) + q.verts[vi..vi + n]
    ensures DrawnVertices(r.verts, r.cmds[c]) == []
    ensures forall j :: base <= j < q.curCommand && j != c ==>
      DrawnVertices(r.verts, r.cmds[j]) == DrawnVertices(q.verts, q.cmds[j])
  {
    assert r.cmds[q.curCommand] == Draw(merged);
    assert DrawnVertices(r.verts, Draw(merged)) == r.verts[vi..vi + prev.numVertices + n];
    assert DrawnVertices(q.verts, q.cmds[c]) == q.verts[prev.vertexIndex..prev.vertexIndex + prev.numVertices];
    forall j | base <= j < q.curCommand && j != c
      ensures DrawnVertices(r.verts, r.cmds[j]) == DrawnVertices(q.verts, q.cmds[j])
    {
      assert r.cmds[j] == q.cmds[j];
      if q.cmds[j].Draw? {
        var a := q.cmds[j].args;
        assert a.vertexIndex + a.numVertices <= vi;
        SliceOfPrefix(r.verts, q.verts, vi, a.vertexIndex, a.vertexIndex + a.numVertices);
      }
    }
  }

  /** Two sequences with the same prefix agree on every slice of it. */
  lemma SliceOfPrefix<T>(s: seq<T>, t: seq<T>, k: nat, lo: nat, hi: nat)
    requires lo <= hi <= k <= |s| && k <= |t| && s[..k] == t[..k]
    ensures s[lo..hi] == t[lo..hi]
  {
    forall i | 0 <= i < hi - lo
      ensures s[lo..hi][i] == t[lo..hi][i]
    {
      assert s[..k][lo + i] == t[..k][lo + i];
    }
  }

  /** A successful merge leaves the new vertices drawn by a command of the segment that has the
      key's pipeline, textures and uniform contents, over a region containing the new draw's. */
  lemma MergeKeepsBindings(q: Queue, base: nat, key: DrawKey, region: Region, vi: nat, n: nat)
    requires MergeReady(q, base, vi, n)
    requires Merge(q, base, key, region, vi, n).ok
    ensures var r := Merge(q, base, key, region, vi, n).queue;
      exists h :: base <= h < r.curCommand && r.cmds[h].Draw? &&
        Matches(r.cmds[h].args, key, r.uniforms) && Contains(r.cmds[h].args.region, region)
  {
    var r := Merge(q, base, key, region, vi, n).queue;
    ScanFindsCandidate(q.cmds, q.uniforms, base, q.curCommand, key);
    var c := Scan(q.cmds, q.uniforms, base, q.curCommand, key).candidate.value;
    var inters := DrawsDesc(q.cmds, c + 1, q.curCommand);
    if !AnyOverlap(region, q.cmds, inters) {
      ForwardMerge(q, base, key, region, vi, n, c);
      assert r.cmds[c].Draw? && Matches(r.cmds[c].args, key, r.uniforms);
    } else {
      BackwardMerge(q, base, key, region, vi, n, c);
      assert r.cmds[q.curCommand].Draw? && Matches(r.cmds[q.curCommand].args, key, r.uniforms);
    }
  }

  /** A custom pipeline of the state overrides the built-in one. */
  function EffectivePipeline(st: State, pip: nat): nat
  {
    if st.pipeline != INVALID_ID then st.pipeline else pip
  }

  /** Draws with a custom pipeline carry the state's uniform; built-in ones carry none. */
  function EffectiveUniform(st: State): Option<Uniform>
  {
    if st.pipeline != INVALID_ID then Some(st.uniform) else None
  }

  /** Append a draw command with the given uniform index; on a full command arena the
      draw's vertices are given back. */
  function AppendCommand(q: Queue, a: DrawArgs, n: nat): Queue
    requires n <= q.curVertex
  {
    if q.curCommand < |q.cmds| then q.(cmds := q.cmds[q.curCommand := Draw(a)], curCommand := q.curCommand + 1)
    else q.(lastError := CommandsFull, curVertex := q.curVertex - n)
  }

  /** Queueing a draw needs a new uniform slot: the draw has a custom pipeline, and the last
      stored uniform (whatever segment stored it) has different contents or there is none. */
  predicate StoresUniform(q: Queue, st: State)
  {
    EffectiveUniform(st).Some? && !(0 < q.curUniform <= |q.uniforms| && q.uniforms[q.curUniform - 1] == st.uniform)
  }

  /** The tail of _sgp_queue_draw when no merge happened: store the uniform unless the last
      stored one has the same contents, then append the draw command. The draw fails with
      UNIFORMS_FULL exactly when it needs a uniform slot and none is left; otherwise a stored
      uniform stays stored even when the draw then fails with COMMANDS_FULL. */
  function AppendDraw(q: Queue, st: State, pip: nat, region: Region, vi: nat, n: nat): (r: Queue)
    requires Bounded(q) && n <= q.curVertex
    ensures Bounded(r) && |r.verts| == |q.verts| && |r.cmds| == |q.cmds| && |r.uniforms| == |q.uniforms|
    ensures r.verts == q.verts && r.uniforms[..q.curUniform] == q.uniforms[..q.curUniform]
    ensures StoresUniform(q, st) && q.curUniform >= |q.uniforms| ==>
      r == q.(lastError := UniformsFull, curVertex := q.curVertex - n)
    ensures !(StoresUniform(q, st) && q.curUniform >= |q.uniforms|) ==>
      && r.uniforms == (if StoresUniform(q, st) then q.uniforms[q.curUniform := st.uniform] else q.uniforms)
      && r.curUniform == (if StoresUniform(q, st) then q.curUniform + 1 else q.curUniform)
      && (q.curCommand < |q.cmds| ==> r.curCommand == q.curCommand + 1)
      && (q.curCommand >= |q.cmds| ==>
            r.lastError == CommandsFull && r.curVertex == q.curVertex - n && r.cmds == q.cmds && r.curCommand == q.curCommand)
    ensures r.curCommand == q.curCommand + 1 ==>
      && r.curVertex == q.curVertex && r.lastError == q.lastError
      && r.cmds == q.cmds[q.curCommand := r.cmds[q.curCommand]]
      && r.cmds[q.curCommand].Draw?
      && var a := r.cmds[q.curCommand].args;
         && a.pip == pip && a.textures == st.textures && a.region == region
         && a.vertexIndex == vi && a.numVertices == n
         && (EffectiveUniform(st).None? ==> a.uniformIndex == IMPOSSIBLE_ID && r.curUniform == q.curUniform)
         && (EffectiveUniform(st).Some? ==>
               a.uniformIndex == r.curUniform - 1 && r.uniforms[a.uniformIndex] == st.uniform &&
               (if q.curUniform > 0 && q.uniforms[q.curUniform - 1] == st.uniform
                then r.curUniform == q.curUniform else r.curUniform == q.curUniform + 1))
    ensures r.curCommand != q.curCommand + 1 ==>
      && r.curCommand == q.curCommand && r.cmds == q.cmds && r.curVertex == q.curVertex - n
      && (r.lastError == UniformsFull || r.lastError == CommandsFull)
  {
    var uni := EffectiveUniform(st);
    if uni.None? then AppendCommand(q, DrawArgs(pip, st.textures, region, IMPOSSIBLE_ID, vi, n), n)
    else if q.curUniform > 0 && q.uniforms[q.curUniform - 1] == uni.value then
      AppendCommand(q, DrawArgs(pip, st.textures, region, q.curUniform - 1, vi, n), n)
    else if q.curUniform >= |q.uniforms| then q.(lastError := UniformsFull, curVertex := q.curVertex - n)
    else
      var q1 := q.(uniforms := q.uniforms[q.curUniform := uni.value], curUniform := q.curUniform + 1);
      AppendCommand(q1, DrawArgs(pip, st.textures, region, q.curUniform, vi, n), n)
  }

  /** _sgp_queue_draw: queue a draw whose `n` vertices were just written at `vi`. Draws with
      no pipeline or wholly off-screen are dropped and their vertices given back; strips are
      never merged, since their vertices are connected. */
  function QueueDraw(q: Queue, st: State, pip: nat, region: Region, vi: nat, n: nat, prim: PrimitiveType): (r: Queue)
    requires MergeReady(q, st.baseCommand, vi, n)
    ensures Bounded(r) && |r.verts| == |q.verts| && |r.cmds| == |q.cmds| && |r.uniforms| == |q.uniforms|
    ensures (EffectivePipeline(st, pip) == INVALID_ID || OffScreen(region)) ==> r == q.(curVertex := q.curVertex - n)
    ensures IsStrip(prim) ==> r.verts == q.verts && r.cmds[..q.curCommand] == q.cmds[..q.curCommand]
    ensures r.curVertex == q.curVertex - n || q.curVertex <= r.curVertex
    ensures q.curUniform <= r.curUniform && q.curCommand <= r.curCommand
  {
    var p := EffectivePipeline(st, pip);
    if p == INVALID_ID || OffScreen(region) then q.(curVertex := q.curVertex - n)
    else
      var m := if IsStrip(prim) then MergeResult(false, q)
               else Merge(q, st.baseCommand, DrawKey(p, st.textures, EffectiveUniform(st)), region, vi, n);
      if m.ok then m.queue else AppendDraw(m.queue, st, p, region, vi, n)
  }

  /** A merge never introduces a uniform index: the grown candidate, the shifted draws and
      the appended draw keep the indices of draws already queued. */
  lemma MergeKeepsReadable(q: Queue, base: nat, key: DrawKey, region: Region, vi: nat, n: nat)
    requires MergeReady(q, base, vi, n) && DrawsReadable(q.cmds, |q.uniforms|)
    ensures var r := Merge(q, base, key, region, vi, n).queue;
      DrawsReadable(r.cmds, |r.uniforms|)
  {
    var s := Scan(q.cmds, q.uniforms, base, q.curCommand, key);
    ScanFindsCandidate(q.cmds, q.uniforms, base, q.curCommand, key);
    if s.candidate.Some? {
      var c := s.candidate.value;
      var r := Merge(q, base, key, region, vi, n).queue;
      forall j | 0 <= j < |r.cmds| && r.cmds[j].Draw?
        ensures r.cmds[j].args.uniformIndex == IMPOSSIBLE_ID || r.cmds[j].args.uniformIndex < |r.uniforms|
      {
        if r.cmds != q.cmds && r.cmds[j] != q.cmds[j] {
          if j == c {
            assert r.cmds[j].args.uniformIndex == q.cmds[c].args.uniformIndex;
          } else if j < |q.cmds| && r.cmds[j] == ShiftVertexIndex(q.cmds[j], n) {
          } else {
            assert r.cmds[j].args.uniformIndex == q.cmds[c].args.uniformIndex;
          }
        }
      }
    }
  }

  /** Queueing a draw keeps every queued draw's uniform readable: a new draw carries no
      uniform or the index of the uniform it just stored or reused. */
  lemma QueueDrawKeepsReadable(q: Queue, st: State, pip: nat, region: Region, vi: nat, n: nat, prim: PrimitiveType)
    requires MergeReady(q, st.baseCommand, vi, n) && DrawsReadable(q.cmds, |q.uniforms|)
    ensures var r := QueueDraw(q, st, pip, region, vi, n, prim);
      DrawsReadable(r.cmds, |r.uniforms|)
  {
    var p := EffectivePipeline(st, pip);
    if p != INVALID_ID && !OffScreen(region) && !IsStrip(prim) {
      MergeKeepsReadable(q, st.baseCommand, DrawKey(p, st.textures, EffectiveUniform(st)), region, vi, n);
    }
  }

  /** `s` ends with `t`. */
  predicate EndsWith(s: seq<Vertex>, t: seq<Vertex>)
  {
    |t| <= |s| && s[|s| - |t|..] == t
  }

  lemma EndsWithAppend(s: seq<Vertex>, t: seq<Vertex>)
    ensures EndsWith(s + t, t)
  {
    assert (s + t)[|s|..] == t;
  }

  /** After queueing the draw of `n` vertices written at `vi`, draw `h` of the segment has the
      key's bindings, covers the draw's region, and draws those vertices last. */
  predicate DrawnBy(q: Queue, r: Queue, base: nat, key: DrawKey, region: Region, vi: nat, n: nat, h: nat)
    requires vi + n <= |q.verts|
  {
    base <= h < r.curCommand && h < |r.cmds| && r.cmds[h].Draw? &&
    Matches(r.cmds[h].args, key, r.uniforms) && Contains(r.cmds[h].args.region, region) &&
    EndsWith(DrawnVertices(r.verts, r.cmds[h]), q.verts[vi..vi + n])
  }

  /** Draw `h` of the segment, which has the key's bindings, was grown over the region of the
      new draw and over the `n` vertices after its own, which end before `vi`: the vertices in
      between were claimed and never queued, and the new draw's vertices are not drawn. */
  predicate GrownOverGap(q: Queue, r: Queue, base: nat, key: DrawKey, region: Region, vi: nat, n: nat, h: nat)
  {
    base <= h < r.curCommand && h < |q.cmds| && h < |r.cmds| && q.cmds[h].Draw? && r.cmds[h].Draw? &&
    Matches(r.cmds[h].args, key, r.uniforms) && Contains(r.cmds[h].args.region, region) &&
    var e := q.cmds[h].args.vertexIndex + q.cmds[h].args.numVertices;
    e < vi && e + n <= |q.verts| && r.verts == q.verts &&
    DrawnVertices(r.verts, r.cmds[h]) == DrawnVertices(q.verts, q.cmds[h]) + q.verts[e..e + n]
  }

  /** Every draw of the segment other than `h` that is still a draw reads what it read before. */
  predicate OthersKept(q: Queue, r: Queue, base: nat, h: nat)
  {
    forall j :: base <= j < q.curCommand && j < |q.cmds| && j < |r.cmds| && j != h && r.cmds[j].Draw? ==>
      DrawnVertices(r.verts, r.cmds[j]) == DrawnVertices(q.verts, q.cmds[j])
  }

  /** No command took the draw: its vertices were given back and the error recorded. */
  predicate GivenBack(q: Queue, r: Queue, vi: nat)
  {
    r.curVertex == vi && r.verts == q.verts && r.cmds == q.cmds &&
    (r.lastError == UniformsFull || r.lastError == CommandsFull)
  }

  /** A slot taken by a refused backward merge still holds the draw an earlier segment left
      there, and that draw now belongs to the segment. */
  predicate StaleSlotKept(q: Queue, r: Queue)
  {
    q.curCommand < r.curCommand && q.curCommand < |q.cmds| && q.curCommand < |r.cmds| &&
    q.cmds[q.curCommand].Draw? && r.cmds[q.curCommand] == q.cmds[q.curCommand]
  }

  /** What queueing an on-screen draw with a pipeline does, for a segment whose draws use
      vertices in command order before the new ones: either the vertices are given back with
      UNIFORMS_FULL or COMMANDS_FULL and no command changes, or one draw of the segment (the
      merged candidate, the command a backward merge appended, or the appended draw) has the
      draw's bindings and region and draws its vertices last, while every other draw keeps its
      vertices. The one exception is a candidate grown in place over vertices claimed and
      never queued (GrownOverGap). */
  lemma QueueDrawOutcome(q: Queue, st: State, pip: nat, region: Region, vi: nat, n: nat, prim: PrimitiveType)
    requires MergeReady(q, st.baseCommand, vi, n) && InOrder(q.cmds, st.baseCommand, q.curCommand, vi)
    requires EffectivePipeline(st, pip) != INVALID_ID && !OffScreen(region)
    ensures var r := QueueDraw(q, st, pip, region, vi, n, prim);
      var key := DrawKey(EffectivePipeline(st, pip), st.textures, EffectiveUniform(st));
      || GivenBack(q, r, vi)
      || exists h :: (DrawnBy(q, r, st.baseCommand, key, region, vi, n, h) || GrownOverGap(q, r, st.baseCommand, key, region, vi, n, h))
                     && OthersKept(q, r, st.baseCommand, h)
  {
    var p := EffectivePipeline(st, pip);
    var key := DrawKey(p, st.textures, EffectiveUniform(st));
    var m := if IsStrip(prim) then MergeResult(false, q) else Merge(q, st.baseCommand, key, region, vi, n);
    if m.ok {
      MergeOutcome(q, st.baseCommand, key, region, vi, n);
    } else {
      if !IsStrip(prim) {
        MergeRefusalKeeps(q, st.baseCommand, key, region, vi, n);
      }
      AppendOutcome(q, m.queue, st, p, key, region, vi, n);
    }
  }

  /** A refused merge changes no vertex, uniform or command; it may only have taken a slot. */
  lemma MergeRefusalKeeps(q: Queue, base: nat, key: DrawKey, region: Region, vi: nat, n: nat)
    requires MergeReady(q, base, vi, n)
    ensures var m := Merge(q, base, key, region, vi, n);
      !m.ok ==>
        && m.queue.verts == q.verts && m.queue.cmds == q.cmds && m.queue.uniforms == q.uniforms
        && m.queue.curVertex == q.curVertex && m.queue.curUniform == q.curUniform
        && (m.queue.curCommand == q.curCommand || m.queue.curCommand == q.curCommand + 1)
  {
  }

  /** The draw appended after a refused merge is the one that draws the new vertices. */
  lemma AppendOutcome(q: Queue, m: Queue, st: State, p: nat, key: DrawKey, region: Region, vi: nat, n: nat)
    requires MergeReady(q, st.baseCommand, vi, n) && key == DrawKey(p, st.textures, EffectiveUniform(st))
    requires Bounded(m) && m.verts == q.verts && m.cmds == q.cmds && m.uniforms == q.uniforms
    requires m.curVertex == q.curVertex && m.curUniform == q.curUniform && q.curCommand <= m.curCommand
    ensures var r := AppendDraw(m, st, p, region, vi, n);
      || GivenBack(q, r, vi)
      || (DrawnBy(q, r, st.baseCommand, key, region, vi, n, m.curCommand) && OthersKept(q, r, st.baseCommand, m.curCommand))
  {
    var r := AppendDraw(m, st, p, region, vi, n);
    if r.curCommand == m.curCommand + 1 {
      var a := r.cmds[m.curCommand].args;
      assert DrawnVertices(r.verts, r.cmds[m.curCommand]) == q.verts[vi..vi + n];
      assert q.verts[vi..vi + n][0..] == q.verts[vi..vi + n];
      assert forall j :: 0 <= j < |q.cmds| && j != m.curCommand ==> r.cmds[j] == q.cmds[j];
    }
  }

  /** The draw a successful merge leaves drawing the new vertices, on a segment in order. */
  lemma MergeOutcome(q: Queue, base: nat, key: DrawKey, region: Region, vi: nat, n: nat)
    requires MergeReady(q, base, vi, n) && InOrder(q.cmds, base, q.curCommand, vi)
    requires Merge(q, base, key, region, vi, n).ok
    ensures var r := Merge(q, base, key, region, vi, n).queue;
      exists h :: (DrawnBy(q, r, base, key, region, vi, n, h) || GrownOverGap(q, r, base, key, region, vi, n, h))
                  && OthersKept(q, r, base, h)
  {
    ScanFindsCandidate(q.cmds, q.uniforms, base, q.curCommand, key);
    var c := Scan(q.cmds, q.uniforms, base, q.curCommand, key).candidate.value;
    var inters := DrawsDesc(q.cmds, c + 1, q.curCommand);
    if !AnyOverlap(region, q.cmds, inters) {
      if |inters| == 0 {
        InPlaceOutcome(q, base, key, region, vi, n, c);
      } else {
        ForwardOutcome(q, base, key, region, vi, n, c);
      }
    } else {
      BackwardOutcome(q, base, key, region, vi, n, c);
    }
  }

  lemma InPlaceOutcome(q: Queue, base: nat, key: DrawKey, region: Region, vi: nat, n: nat, c: nat)
    requires MergeReady(q, base, vi, n) && InOrder(q.cmds, base, q.curCommand, vi)
    requires IsCandidate(q.cmds, q.uniforms, key, base, q.curCommand, c)
    requires |DrawsDesc(q.cmds, c + 1, q.curCommand)| == 0
    ensures var r := Merge(q, base, key, region, vi, n).queue;
      (DrawnBy(q, r, base, key, region, vi, n, c) || GrownOverGap(q, r, base, key, region, vi, n, c))
      && OthersKept(q, r, base, c)
  {
    var r := Merge(q, base, key, region, vi, n).queue;
    ForwardMergeExtendsInPlace(q, base, key, region, vi, n, c);
    var prev := q.cmds[c].args;
    assert prev.vertexIndex + prev.numVertices <= vi;
    assert r.cmds == q.cmds[c := Draw(Grown(prev, region, n))] && r.verts == q.verts;
    if prev.vertexIndex + prev.numVertices == vi {
      EndsWithAppend(DrawnVertices(q.verts, q.cmds[c]), q.verts[vi..vi + n]);
      assert DrawnBy(q, r, base, key, region, vi, n, c);
    } else {
      assert GrownOverGap(q, r, base, key, region, vi, n, c);
    }
  }

  lemma ForwardOutcome(q: Queue, base: nat, key: DrawKey, region: Region, vi: nat, n: nat, c: nat)
    requires MergeReady(q, base, vi, n) && InOrder(q.cmds, base, q.curCommand, vi)
    requires IsCandidate(q.cmds, q.uniforms, key, base, q.curCommand, c)
    requires !AnyOverlap(region, q.cmds, DrawsDesc(q.cmds, c + 1, q.curCommand))
    requires |DrawsDesc(q.cmds, c + 1, q.curCommand)| > 0
    requires Merge(q, base, key, region, vi, n).ok
    ensures var r := Merge(q, base, key, region, vi, n).queue;
      DrawnBy(q, r, base, key, region, vi, n, c) && OthersKept(q, r, base, c)
  {
    var r := Merge(q, base, key, region, vi, n).queue;
    var inters := DrawsDesc(q.cmds, c + 1, q.curCommand);
    var prev := q.cmds[c].args;
    ForwardMerge(q, base, key, region, vi, n, c);
    ForwardMergeDrawsBoth(q, base, key, region, vi, n, c);
    DrawsDescRange(q.cmds, c + 1, q.curCommand);
    EndsWithAppend(DrawnVertices(q.verts, q.cmds[c]), q.verts[vi..vi + n]);
    assert r.cmds[c] == Draw(Grown(prev, region, n));
    ForwardKeepsOthers(q, r, base, c, inters, vi, n);
  }

  /** After a forward merge, the draws before the candidate read the unmoved vertices and the
      draws after it read their moved vertices. */
  lemma ForwardKeepsOthers(q: Queue, r: Queue, base: nat, c: nat, inters: seq<nat>, vi: nat, n: nat)
    requires base <= c < q.curCommand <= |q.cmds| == |r.cmds| && q.cmds[c].Draw? && |q.verts| == |r.verts|
    requires InOrder(q.cmds, base, q.curCommand, vi)
    requires var prevEnd := q.cmds[c].args.vertexIndex + q.cmds[c].args.numVertices;
      prevEnd <= |q.verts| && r.verts[..prevEnd] == q.verts[..prevEnd]
    requires forall j :: 0 <= j < |q.cmds| && j != c ==>
      r.cmds[j] == if j in inters then ShiftVertexIndex(q.cmds[j], n) else q.cmds[j]
    requires forall k :: 0 <= k < |inters| ==> c < inters[k] < q.curCommand && q.cmds[inters[k]].Draw?
    requires forall j ::
      (c < j < q.curCommand && q.cmds[j].Draw? && q.cmds[c].args.vertexIndex + q.cmds[c].args.numVertices <= q.cmds[j].args.vertexIndex)
      ==> DrawnVertices(r.verts, r.cmds[j]) == DrawnVertices(q.verts, q.cmds[j])
    ensures OthersKept(q, r, base, c)
  {
    var prevEnd := q.cmds[c].args.vertexIndex + q.cmds[c].args.numVertices;
    forall j | base <= j < q.curCommand && j < |q.cmds| && j < |r.cmds| && j != c && r.cmds[j].Draw?
      ensures DrawnVertices(r.verts, r.cmds[j]) == DrawnVertices(q.verts, q.cmds[j])
    {
      assert q.cmds[j].Draw?;
      if j < c {
        assert j !in inters;
        var a := q.cmds[j].args;
        assert a.vertexIndex + a.numVertices <= q.cmds[c].args.vertexIndex;
        SliceOfPrefix(r.verts, q.verts, prevEnd, a.vertexIndex, a.vertexIndex + a.numVertices);
      } else {
        assert prevEnd <= q.cmds[j].args.vertexIndex;
      }
    }
  }

  lemma BackwardOutcome(q: Queue, base: nat, key: DrawKey, region: Region, vi: nat, n: nat, c: nat)
    requires MergeReady(q, base, vi, n) && InOrder(q.cmds, base, q.curCommand, vi)
    requires IsCandidate(q.cmds, q.uniforms, key, base, q.curCommand, c)
    requires AnyOverlap(region, q.cmds, DrawsDesc(q.cmds, c + 1, q.curCommand))
    requires Merge(q, base, key, region, vi, n).ok
    ensures var r := Merge(q, base, key, region, vi, n).queue;
      DrawnBy(q, r, base, key, region, vi, n, q.curCommand) && OthersKept(q, r, base, q.curCommand)
  {
    var r := Merge(q, base, key, region, vi, n).queue;
    var prev := q.cmds[c].args;
    ScanFindsCandidate(q.cmds, q.uniforms, base, q.curCommand, key);
    assert !AnyOverlap(prev.region, q.cmds, DrawsDesc(q.cmds, c + 1, q.curCommand));
    BackwardMerge(q, base, key, region, vi, n, c);
    BackwardMergeDrawsBoth(q, base, key, region, vi, n, c);
    EndsWithAppend(DrawnVertices(q.verts, q.cmds[c]), q.verts[vi..vi + n]);
  }

  /** A segment whose draws use vertices in command order before the cursor stays so when a
      draw is queued, unless a refused backward merge took a slot that still holds a draw left
      by an earlier segment (StaleSlotKept): that draw then belongs to the segment, wherever
      its vertices are, and the next flush replays it. */
  lemma QueueDrawKeepsOrder(q: Queue, st: State, pip: nat, region: Region, vi: nat, n: nat, prim: PrimitiveType)
    requires MergeReady(q, st.baseCommand, vi, n) && InOrder(q.cmds, st.baseCommand, q.curCommand, vi)
    ensures var r := QueueDraw(q, st, pip, region, vi, n, prim);
      InOrder(r.cmds, st.baseCommand, r.curCommand, r.curVertex) || StaleSlotKept(q, r)
  {
    var p := EffectivePipeline(st, pip);
    if p != INVALID_ID && !OffScreen(region) {
      var key := DrawKey(p, st.textures, EffectiveUniform(st));
      var m := if IsStrip(prim) then MergeResult(false, q) else Merge(q, st.baseCommand, key, region, vi, n);
      if m.ok {
        MergeKeepsOrder(q, st.baseCommand, key, region, vi, n);
      } else {
        if !IsStrip(prim) {
          MergeRefusalKeeps(q, st.baseCommand, key, region, vi, n);
        }
        AppendKeepsOrder(q, m.queue, st, p, region, vi, n);
      }
    }
  }

  lemma AppendKeepsOrder(q: Queue, m: Queue, st: State, p: nat, region: Region, vi: nat, n: nat)
    requires MergeReady(q, st.baseCommand, vi, n) && InOrder(q.cmds, st.baseCommand, q.curCommand, vi)
    requires Bounded(m) && m.verts == q.verts && m.cmds == q.cmds && m.uniforms == q.uniforms
    requires m.curVertex == q.curVertex && m.curUniform == q.curUniform
    requires m.curCommand == q.curCommand || m.curCommand == q.curCommand + 1
    ensures var r := AppendDraw(m, st, p, region, vi, n);
      InOrder(r.cmds, st.baseCommand, r.curCommand, r.curVertex) || StaleSlotKept(q, r)
  {
    var r := AppendDraw(m, st, p, region, vi, n);
    var base, cur := st.baseCommand, q.curCommand;
    if !StaleSlotKept(q, r) {
      if r.curCommand == m.curCommand + 1 {
        var a := m.curCommand;
        assert forall j :: 0 <= j < |q.cmds| && j != a ==> r.cmds[j] == q.cmds[j];
        assert a == cur + 1 ==> !q.cmds[cur].Draw?;
        assert r.cmds[a] == Draw(DrawArgs(p, st.textures, region, r.cmds[a].args.uniformIndex, vi, n));
      } else {
        assert m.curCommand == cur + 1 ==> !q.cmds[cur].Draw?;
      }
    }
  }

  /** A successful merge keeps a segment in order: the grown candidate ends where the draws
      after it begin, now `n` places further up. */
  lemma MergeKeepsOrder(q: Queue, base: nat, key: DrawKey, region: Region, vi: nat, n: nat)
    requires MergeReady(q, base, vi, n) && InOrder(q.cmds, base, q.curCommand, vi)
    requires Merge(q, base, key, region, vi, n).ok
    ensures var r := Merge(q, base, key, region, vi, n).queue;
      InOrder(r.cmds, base, r.curCommand, r.curVertex)
  {
    ScanFindsCandidate(q.cmds, q.uniforms, base, q.curCommand, key);
    var c := Scan(q.cmds, q.uniforms, base, q.curCommand, key).candidate.value;
    var inters := DrawsDesc(q.cmds, c + 1, q.curCommand);
    DrawsDescMembers(q.cmds, c + 1, q.curCommand);
    if !AnyOverlap(region, q.cmds, inters) {
      ForwardMergeKeepsOrder(q, base, key, region, vi, n, c);
    } else {
      BackwardKeepsOrder(q, base, key, region, vi, n, c);
    }
  }

  /** The forward case of MergeKeepsOrder. */
  lemma ForwardMergeKeepsOrder(q: Queue, base: nat, key: DrawKey, region: Region, vi: nat, n: nat, c: nat)
    requires MergeReady(q, base, vi, n) && InOrder(q.cmds, base, q.curCommand, vi)
    requires IsCandidate(q.cmds, q.uniforms, key, base, q.curCommand, c)
    requires !AnyOverlap(region, q.cmds, DrawsDesc(q.cmds, c + 1, q.curCommand))
    requires Merge(q, base, key, region, vi, n).ok
    ensures var r := Merge(q, base, key, region, vi, n).queue;
      InOrder(r.cmds, base, r.curCommand, r.curVertex)
  {
    var inters := DrawsDesc(q.cmds, c + 1, q.curCommand);
    DrawsDescMembers(q.cmds, c + 1, q.curCommand);
    MergeIsForward(q, base, key, region, vi, n, c);
    MergeForwardKeepsOrder(q, base, c, inters, region, vi, n);
  }

  /** The forward merge itself keeps a segment in order, with `inters` the draws between
      the candidate and the end of the segment. */
  lemma MergeForwardKeepsOrder(q: Queue, base: nat, c: nat, inters: seq<nat>, region: Region, vi: nat, n: nat)
    requires MergeReady(q, base, vi, n) && InOrder(q.cmds, base, q.curCommand, vi)
    requires base <= c < q.curCommand && q.cmds[c].Draw?
    requires forall k :: 0 <= k < |inters| ==> c < inters[k] < q.curCommand && q.cmds[inters[k]].Draw?
    requires forall j :: c < j < q.curCommand && q.cmds[j].Draw? ==> j in inters
    requires MergeForward(q, base, c, inters, region, vi, n).ok
    ensures var r := MergeForward(q, base, c, inters, region, vi, n).queue;
      InOrder(r.cmds, base, r.curCommand, r.curVertex)
  {
    MergeForwardSteps(q, base, c, inters, region, vi, n);
    ForwardKeepsOrder(q, MergeForward(q, base, c, inters, region, vi, n).queue, base, c, inters, region, n);
  }

  /** The command a backward merge appends starts where the segment's draws end. */
  lemma BackwardKeepsOrder(q: Queue, base: nat, key: DrawKey, region: Region, vi: nat, n: nat, c: nat)
    requires MergeReady(q, base, vi, n) && InOrder(q.cmds, base, q.curCommand, vi)
    requires IsCandidate(q.cmds, q.uniforms, key, base, q.curCommand, c)
    requires AnyOverlap(region, q.cmds, DrawsDesc(q.cmds, c + 1, q.curCommand))
    requires Merge(q, base, key, region, vi, n).ok
    ensures var r := Merge(q, base, key, region, vi, n).queue;
      InOrder(r.cmds, base, r.curCommand, r.curVertex)
  {
    var prev := q.cmds[c].args;
    BackwardMergeCommands(q, base, key, region, vi, n, c);
    MovedToEndKeepsOrder(q.cmds, base, c, q.curCommand, vi,
                         DrawArgs(key.pip, key.textures, Union(prev.region, region), prev.uniformIndex, vi, n + prev.numVertices),
                         q.curVertex + prev.numVertices);
  }

  /** The commands and cursors after a successful backward merge. */
  lemma BackwardMergeCommands(q: Queue, base: nat, key: DrawKey, region: Region, vi: nat, n: nat, c: nat)
    requires MergeReady(q, base, vi, n)
    requires IsCandidate(q.cmds, q.uniforms, key, base, q.curCommand, c)
    requires AnyOverlap(region, q.cmds, DrawsDesc(q.cmds, c + 1, q.curCommand))
    requires Merge(q, base, key, region, vi, n).ok
    ensures var r := Merge(q, base, key, region, vi, n).queue;
      var prev := q.cmds[c].args;
      && q.curCommand < |q.cmds| && r.curCommand == q.curCommand + 1
      && r.curVertex == q.curVertex + prev.numVertices
      && r.cmds == q.cmds[q.curCommand := Draw(DrawArgs(key.pip, key.textures, Union(prev.region, region),
                                                         prev.uniformIndex, vi, n + prev.numVertices))][c := NoneCmd]
  {
    ScanFindsCandidate(q.cmds, q.uniforms, base, q.curCommand, key);
    assert !AnyOverlap(q.cmds[c].args.region, q.cmds, DrawsDesc(q.cmds, c + 1, q.curCommand));
    MergeIsBackward(q, base, key, region, vi, n, c);
  }

  /** Replacing the candidate `c` by a draw in slot `k`, at the end of the segment, of the
      vertices from `vi` up to `limit` keeps the segment in order. */
  lemma MovedToEndKeepsOrder(cmds: seq<Command>, base: nat, c: nat, k: nat, vi: nat, a: DrawArgs, limit: nat)
    requires base <= c < k < |cmds| && InOrder(cmds, base, k, vi)
    requires a.vertexIndex == vi && vi + a.numVertices == limit
    ensures InOrder(cmds[k := Draw(a)][c := NoneCmd], base, k + 1, limit)
  {
    var r := cmds[k := Draw(a)][c := NoneCmd];
    assert forall j :: base <= j < k && j != c ==> r[j] == cmds[j];
  }

  /** The commands of a forward merge keep a segment in order. */
  lemma ForwardKeepsOrder(q: Queue, r: Queue, base: nat, c: nat, inters: seq<nat>, region: Region, n: nat)
    requires base <= c < q.curCommand <= |q.cmds| == |r.cmds| && q.cmds[c].Draw?
    requires r.curCommand == q.curCommand && r.curVertex == q.curVertex && n <= q.curVertex
    requires InOrder(q.cmds, base, q.curCommand, q.curVertex - n)
    requires r.cmds[c] == Draw(Grown(q.cmds[c].args, region, n))
    requires forall j :: 0 <= j < |q.cmds| && j != c ==>
      r.cmds[j] == if j in inters then ShiftVertexIndex(q.cmds[j], n) else q.cmds[j]
    requires forall k :: 0 <= k < |inters| ==> c < inters[k] < q.curCommand && q.cmds[inters[k]].Draw?
    requires forall j :: c < j < q.curCommand && q.cmds[j].Draw? ==> j in inters
    ensures InOrder(r.cmds, base, r.curCommand, r.curVertex)
  {
    var vi := q.curVertex - n;
    var prevEnd := q.cmds[c].args.vertexIndex + q.cmds[c].args.numVertices;
    assert prevEnd <= vi;
    forall j, k | base <= j < k < r.curCommand && r.cmds[j].Draw? && r.cmds[k].Draw?
      ensures r.cmds[j].args.vertexIndex + r.cmds[j].args.numVertices <= r.cmds[k].args.vertexIndex
    {
      assert q.cmds[j].Draw? && q.cmds[k].Draw?;
    }
  }

  /** The scan loop over the command array. */
  method ScanQueue(cmds: array<Command>, uniforms: array<Uniform>, base: nat, cur: nat, key: DrawKey) returns (r: ScanResult)
    requires base <= cur <= cmds.Length
    ensures r == Scan(cmds[..], uniforms[..], base, cur, key)
  {
    var depth: nat, lookup: nat := 0, BATCH_OPTIMIZER_DEPTH;
    var inters: seq<nat> := [];
    while depth < lookup
      invariant depth <= cur - base
      invariant ScanFrom(cmds[..], uniforms[..], base, cur, key, depth, lookup, inters) == Scan(cmds[..], uniforms[..], base, cur, key)
      decreases cur - base - depth
    {
      if cur - base < depth + 1 {
        break;
      }
      var i := cur - (depth + 1);
      var cmd := cmds[i];
      if cmd.NoneCmd? {
        lookup := lookup + 1;
        depth := depth + 1;
        continue;
      }
      if !cmd.Draw? {
        break;
      }
      var a := cmd.args;
      if a.pip == key.pip && a.textures == key.textures && (key.uniform.None? || (a.uniformIndex < uniforms.Length && uniforms[a.uniformIndex] == key.uniform.value)) {
        return ScanResult(Some(i), inters);
      }
      inters := inters + [i];
      depth := depth + 1;
    }
    return ScanResult(None, inters);
  }

  /** The overlap loop: stops as soon as both the new draw and the candidate are found to
      overlap some draw in between. */
  method CheckOverlaps(cmds: array<Command>, inters: seq<nat>, region: Region, prevRegion: Region)
    returns (refused: bool, overlapsNew: bool)
    requires forall k :: 0 <= k < |inters| ==> inters[k] < cmds.Length
    ensures refused <==> AnyOverlap(region, cmds[..], inters) && AnyOverlap(prevRegion, cmds[..], inters)
    ensures !refused ==> overlapsNew == AnyOverlap(region, cmds[..], inters)
  {
    overlapsNew := false;
    var overlapsPrev := false;
    var i := 0;
    while i < |inters|
      invariant 0 <= i <= |inters|
      invariant overlapsNew <==> AnyOverlap(region, cmds[..], inters[..i])
      invariant overlapsPrev <==> AnyOverlap(prevRegion, cmds[..], inters[..i])
      invariant !(overlapsNew && overlapsPrev)
    {
      var interRegion := RegionOf(cmds[inters[i]]);
      assert inters[..i + 1] == inters[..i] + [inters[i]];
      if Overlaps(region, interRegion) {
        overlapsNew := true;
        if overlapsPrev {
          AnyOverlapPrefix(region, cmds[..], inters, i + 1);
          AnyOverlapPrefix(prevRegion, cmds[..], inters, i);
          return true, overlapsNew;
        }
      }
      if Overlaps(prevRegion, interRegion) {
        overlapsPrev := true;
        if overlapsNew {
          AnyOverlapPrefix(region, cmds[..], inters, i + 1);
          AnyOverlapPrefix(prevRegion, cmds[..], inters, i + 1);
          return true, overlapsNew;
        }
      }
      i := i + 1;
    }
    assert inters[..i] == inters;
    return false, overlapsNew;
  }

  lemma AnyOverlapPrefix(r: Region, cmds: seq<Command>, inters: seq<nat>, i: nat)
    requires i <= |inters|
    requires AnyOverlap(r, cmds, inters[..i])
    ensures AnyOverlap(r, cmds, inters)
  {
    var k :| 0 <= k < i && inters[..i][k] < |cmds| && Overlaps(r, RegionOf(cmds[inters[..i][k]]));
    assert inters[k] == inters[..i][k];
  }

  /** Offset the vertices of the draws in between by `n`. */
  method ShiftIntermediates(cmds: array<Command>, inters: seq<nat>, n: nat)
    requires forall k :: 0 <= k < |inters| ==> inters[k] < cmds.Length
    requires forall k, l :: 0 <= k < l < |inters| ==> inters[k] != inters[l]
    modifies cmds
    ensures cmds[..] == Shifted(old(cmds[..]), inters, n)
  {
    ghost var s := cmds[..];
    var i := 0;
    while i < |inters|
      invariant 0 <= i <= |inters| && |s| == cmds.Length
      invariant forall j :: 0 <= j < cmds.Length ==>
        cmds[j] == if j in inters[..i] then ShiftVertexIndex(s[j], n) else s[j]
    {
      var j := inters[i];
      assert j !in inters[..i];
      assert inters[..i + 1] == inters[..i] + [j];
      cmds[j] := ShiftVertexIndex(cmds[j], n);
      i := i + 1;
    }
    assert inters[..i] == inters;
  }
}
