/** The state stack of sgp_begin / sgp_end and the transform stack of sgp_push_transform /
    sgp_pop_transform, as values: the pushed entries, outermost first, with what they save. */
module Stacks {
  import opened Types
  import DrawState
  import Emit

  /** The current state, the states saved by sgp_begin, and the last error. */
  datatype StateStack = StateStack(state: State, pushed: seq<State>, lastError: Error)

  /** sgp_begin: on a full stack only STATE_STACK_OVERFLOW is recorded. Otherwise the error
      is cleared, the current state is saved and a new segment starts at the cursors, with the
      projection `proj` and stroke `thickness` of a `w` x `h` frame. */
  function Begin(f: StateStack, w: int, h: int, proj: Mat, thickness: real,
                 curVertex: nat, curUniform: nat, curCommand: nat, whiteImage: nat, nearestSampler: nat): (r: StateStack)
    ensures |f.pushed| >= MAX_STACK_DEPTH ==> r == f.(lastError := StateStackOverflow)
    ensures |f.pushed| < MAX_STACK_DEPTH ==>
      && |r.pushed| == |f.pushed| + 1 && r.pushed[..|f.pushed|] == f.pushed && r.pushed[|f.pushed|] == f.state
      && r.lastError == NoError
      && r.state.baseVertex == curVertex && r.state.baseUniform == curUniform && r.state.baseCommand == curCommand
      && r.state.pipeline == f.state.pipeline
  {
    if |f.pushed| >= MAX_STACK_DEPTH then f.(lastError := StateStackOverflow)
    else
      StateStack(DrawState.BeginState(f.state, w, h, proj, thickness, curVertex, curUniform, curCommand, whiteImage, nearestSampler),
                 f.pushed + [f.state], NoError)
  }

  /** sgp_end: the last saved state comes back; on an empty stack only
      STATE_STACK_UNDERFLOW is recorded. */
  function End(f: StateStack): (r: StateStack)
    ensures |f.pushed| == 0 ==> r == f.(lastError := StateStackUnderflow)
    ensures |f.pushed| > 0 ==>
      && r.pushed == f.pushed[..|f.pushed| - 1] && r.state == f.pushed[|f.pushed| - 1] && r.lastError == f.lastError
  {
    if |f.pushed| == 0 then f.(lastError := StateStackUnderflow)
    else StateStack(f.pushed[|f.pushed| - 1], f.pushed[..|f.pushed| - 1], f.lastError)
  }

  /** sgp_end undoes sgp_begin: the state and the stack are as before, every setting of the
      enclosing segment included; only the error stays cleared. */
  lemma EndUndoesBegin(f: StateStack, w: int, h: int, proj: Mat, thickness: real,
                       curVertex: nat, curUniform: nat, curCommand: nat, whiteImage: nat, nearestSampler: nat)
    requires |f.pushed| < MAX_STACK_DEPTH
    ensures End(Begin(f, w, h, proj, thickness, curVertex, curUniform, curCommand, whiteImage, nearestSampler))
      == f.(lastError := NoError)
  {
    var b := Begin(f, w, h, proj, thickness, curVertex, curUniform, curCommand, whiteImage, nearestSampler);
    assert b.pushed[..|b.pushed| - 1] == f.pushed;
  }

  /** Begins and ends nest: `k` begins that fit on the stack, followed by `k` ends, give back
      the stack as it was. */
  lemma {:induction false} NestedSegments(f: StateStack, sizes: seq<ISize>, proj: Mat, thickness: real,
                                          curVertex: nat, curUniform: nat, curCommand: nat, whiteImage: nat, nearestSampler: nat)
    requires |f.pushed| + |sizes| <= MAX_STACK_DEPTH
    ensures var b := Begins(f, sizes, proj, thickness, curVertex, curUniform, curCommand, whiteImage, nearestSampler);
      && |b.pushed| == |f.pushed| + |sizes|
      && Ends(b, |sizes|).state == f.state && Ends(b, |sizes|).pushed == f.pushed
    decreases |sizes|
  {
    if |sizes| > 0 {
      var first := Begin(f, sizes[0].w, sizes[0].h, proj, thickness, curVertex, curUniform, curCommand, whiteImage, nearestSampler);
      NestedSegments(first, sizes[1..], proj, thickness, curVertex, curUniform, curCommand, whiteImage, nearestSampler);
      var b := Begins(first, sizes[1..], proj, thickness, curVertex, curUniform, curCommand, whiteImage, nearestSampler);
      EndsSplit(b, |sizes| - 1);
      EndUndoesBegin(f, sizes[0].w, sizes[0].h, proj, thickness, curVertex, curUniform, curCommand, whiteImage, nearestSampler);
    }
  }

  /** One sgp_begin per size, in order. */
  function Begins(f: StateStack, sizes: seq<ISize>, proj: Mat, thickness: real,
                  curVertex: nat, curUniform: nat, curCommand: nat, whiteImage: nat, nearestSampler: nat): StateStack
    decreases |sizes|
  {
    if |sizes| == 0 then f
    else Begins(Begin(f, sizes[0].w, sizes[0].h, proj, thickness, curVertex, curUniform, curCommand, whiteImage, nearestSampler),
                sizes[1..], proj, thickness, curVertex, curUniform, curCommand, whiteImage, nearestSampler)
  }

  /** `k` calls of sgp_end. */
  function Ends(f: StateStack, k: nat): StateStack
    decreases k
  {
    if k == 0 then f else Ends(End(f), k - 1)
  }

  /** The last of `k + 1` ends may be taken first. */
  lemma {:induction false} EndsSplit(f: StateStack, k: nat)
    ensures Ends(f, k + 1) == End(Ends(f, k))
    decreases k
  {
    if k > 0 {
      EndsSplit(End(f), k - 1);
    }
  }

  /** The current state, the transforms saved by sgp_push_transform, and the last error. */
  datatype TransformStack = TransformStack(state: State, pushed: seq<Mat>, lastError: Error)

  /** sgp_push_transform: saves the current transform; on a full stack only
      TRANSFORM_STACK_OVERFLOW is recorded. */
  function PushTransform(t: TransformStack): (r: TransformStack)
    ensures |t.pushed| >= MAX_STACK_DEPTH ==> r == t.(lastError := TransformStackOverflow)
    ensures |t.pushed| < MAX_STACK_DEPTH ==> r == t.(pushed := t.pushed + [t.state.transform])
  {
    if |t.pushed| >= MAX_STACK_DEPTH then t.(lastError := TransformStackOverflow)
    else t.(pushed := t.pushed + [t.state.transform])
  }

  /** sgp_pop_transform: the last saved transform comes back and the combined matrix is
      recomputed from the current projection; on an empty stack only
      TRANSFORM_STACK_UNDERFLOW is recorded. */
  function PopTransform(t: TransformStack): (r: TransformStack)
    ensures |t.pushed| == 0 ==> r == t.(lastError := TransformStackUnderflow)
    ensures |t.pushed| > 0 ==>
      && r.pushed == t.pushed[..|t.pushed| - 1] && r.lastError == t.lastError
      && r.state.transform == t.pushed[|t.pushed| - 1]
      && r.state.mvp == Emit.MulProj(t.state.proj, r.state.transform)
      && r.state == t.state.(transform := r.state.transform, mvp := r.state.mvp)
  {
    if |t.pushed| == 0 then t.(lastError := TransformStackUnderflow)
    else
      var m := t.pushed[|t.pushed| - 1];
      TransformStack(t.state.(transform := m, mvp := Emit.MulProj(t.state.proj, m)), t.pushed[..|t.pushed| - 1], t.lastError)
  }

  /** A pop restores the pushed transform exactly: when the combined matrix is the product
      of the projection and the transform, as sgp_viewport and sgp_pop_transform leave it,
      popping right after a push that fits gives back the same stack and state. */
  lemma PopUndoesPush(t: TransformStack)
    requires |t.pushed| < MAX_STACK_DEPTH
    requires t.state.mvp == Emit.MulProj(t.state.proj, t.state.transform)
    ensures PopTransform(PushTransform(t)) == t
  {
    var p := PushTransform(t);
    assert p.pushed[..|p.pushed| - 1] == t.pushed;
  }
}
