/** The three preallocated arenas (vertices, uniforms, commands) as one value, and the
    block move (memmove) the batch optimizer performs on the vertex arena. */
module Arenas {
  import opened Types

  /** Snapshot of the arenas of the context: contents, cursors and the last error. */
  datatype Queue = Queue(
    verts: seq<Vertex>,
    uniforms: seq<Uniform>,
    cmds: seq<Command>,
    curVertex: nat,
    curUniform: nat,
    curCommand: nat,
    lastError: Error)

  /** Every cursor lies within its arena. */
  predicate Bounded(q: Queue)
  {
    q.curVertex <= |q.verts| && q.curUniform <= |q.uniforms| && q.curCommand <= |q.cmds|
  }

  /** Every DRAW queued in the segment since `base` uses vertices that end at or before `limit`
      (so they lie before the vertices of a draw being queued at `limit`). */
  predicate SpansBelow(cmds: seq<Command>, base: nat, cur: nat, limit: nat)
    requires cur <= |cmds|
  {
    forall j :: base <= j < cur && cmds[j].Draw? ==>
      cmds[j].args.vertexIndex + cmds[j].args.numVertices <= limit
  }

  /** The draws of the segment [base, cur) use vertices in command order, all before `limit`:
      the shape of a segment whose draws were all queued there. */
  predicate InOrder(cmds: seq<Command>, base: nat, cur: nat, limit: nat)
    requires cur <= |cmds|
  {
    && SpansBelow(cmds, base, cur, limit)
    && forall j, k :: base <= j < k < cur && cmds[j].Draw? && cmds[k].Draw? ==>
         cmds[j].args.vertexIndex + cmds[j].args.numVertices <= cmds[k].args.vertexIndex
  }

  /** Every draw held in the command arena carries no uniform or the index of a slot of the
      uniform arena: what flush needs to read the uniforms of the draws it replays. */
  predicate DrawsReadable(cmds: seq<Command>, numUniforms: nat)
  {
    forall j :: 0 <= j < |cmds| && cmds[j].Draw? ==>
      cmds[j].args.uniformIndex == IMPOSSIBLE_ID || cmds[j].args.uniformIndex < numUniforms
  }

  /** memmove(&s[dst], &s[src], k): the block [src, src+k) is copied to [dst, dst+k)
      as if through a temporary buffer; everything else is kept. */
  function Moved<T>(s: seq<T>, dst: nat, src: nat, k: nat): (r: seq<T>)
    requires dst + k <= |s| && src + k <= |s|
    ensures |r| == |s|
  {
    s[..dst] + s[src..src + k] + s[dst + k..]
  }

  /** One element of a moved sequence. */
  lemma MovedAt<T>(s: seq<T>, dst: nat, src: nat, k: nat, i: nat)
    requires dst + k <= |s| && src + k <= |s| && i < |s|
    ensures Moved(s, dst, src, k)[i] == if dst <= i < dst + k then s[src + (i - dst)] else s[i]
  {
  }

  /** Reading a moved sequence element by element. */
  lemma MovedReads<T>(s: seq<T>, dst: nat, src: nat, k: nat)
    requires dst + k <= |s| && src + k <= |s|
    ensures var r := Moved(s, dst, src, k);
      forall i {:trigger r[i]} :: 0 <= i < |s| ==> r[i] == (if dst <= i < dst + k then s[src + (i - dst)] else s[i])
  {
  }

  /** memmove on the vertex array. Copies forwards when moving down and backwards when
      moving up, so that overlapping blocks are handled. */
  method MoveVertices(a: array<Vertex>, dst: nat, src: nat, k: nat)
    requires dst + k <= a.Length && src + k <= a.Length
    modifies a
    ensures a[..] == Moved(old(a[..]), dst, src, k)
  {
    if dst <= src {
      CopyDown(a, dst, src, k);
    } else {
      CopyUp(a, dst, src, k);
    }
  }

  /** The forward copy loop, for a block moving down (or staying). */
  method CopyDown(a: array<Vertex>, dst: nat, src: nat, k: nat)
    requires dst <= src && src + k <= a.Length
    modifies a
    ensures a[..] == Moved(old(a[..]), dst, src, k)
  {
    ghost var s := a[..];
    var i := 0;
    while i < k
      invariant 0 <= i <= k && |s| == a.Length
      invariant forall j :: 0 <= j < a.Length && !(dst <= j < dst + i) ==> a[j] == s[j]
      invariant forall j :: dst <= j < dst + i ==> a[j] == s[src + (j - dst)]
    {
      assert a[src + i] == s[src + i];
      a[dst + i] := a[src + i];
      i := i + 1;
    }
    ghost var m := Moved(s, dst, src, k);
    MovedReads(s, dst, src, k);
    assert forall j :: 0 <= j < a.Length ==> a[j] == m[j];
  }

  /** The backward copy loop, for a block moving up. */
  method CopyUp(a: array<Vertex>, dst: nat, src: nat, k: nat)
    requires src < dst && dst + k <= a.Length
    modifies a
    ensures a[..] == Moved(old(a[..]), dst, src, k)
  {
    ghost var s := a[..];
    var i := k;
    while i > 0
      invariant 0 <= i <= k && |s| == a.Length
      invariant forall j :: 0 <= j < a.Length && !(dst + i <= j < dst + k) ==> a[j] == s[j]
      invariant forall j :: dst + i <= j < dst + k ==> a[j] == s[src + (j - dst)]
    {
      i := i - 1;
      assert a[src + i] == s[src + i];
      a[dst + i] := a[src + i];
    }
    ghost var m := Moved(s, dst, src, k);
    MovedReads(s, dst, src, k);
    assert forall j :: 0 <= j < a.Length ==> a[j] == m[j];
  }
}
