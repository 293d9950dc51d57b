/**
 What the statement emitters write, as functions of the statement and of the
 emitter's context: the scope frames, the variables whose reference has been moved
 away, and the frame depth of each enclosing loop.
 */
module ArcEmission {
  import opened Wrappers
  import opened ArcSyntax

  datatype Ctx = Ctx(
    frames: seq<seq<Name>>,
    consumed: set<Name>,
    loops: seq<nat>,
    syncs: nat,
    temps: nat,
    params: set<Name>)

  datatype Emitted = Emitted(code: seq<Code>, ctx: Ctx)

  function Push(c: Ctx, frame: seq<Name>): Ctx {
    c.(frames := c.frames + [frame])
  }

  function Pop(c: Ctx): Ctx {
    if c.frames == [] then c else c.(frames := c.frames[..|c.frames| - 1])
  }

  function PushLoop(c: Ctx): Ctx {
    c.(loops := c.loops + [|c.frames|])
  }

  function PopLoop(c: Ctx): Ctx {
    if c.loops == [] then c else c.(loops := c.loops[..|c.loops| - 1])
  }

  /** Adds a variable to the innermost frame; a name already there keeps its place. */
  function Track(c: Ctx, x: Name): Ctx {
    if c.frames == [] then c
    else
      var n := |c.frames| - 1;
      if x in c.frames[n] then c else c.(frames := c.frames[n := c.frames[n] + [x]])
  }

  predicate Tracked(c: Ctx, x: Name) {
    x in Flatten(c.frames)
  }

  /** Declaring a variable with this initialiser calls for a retain. */
  predicate IsBorrowed(e: Expr) {
    e.VarRef? || e.SelfRef? || e.Borrowed?
  }

  function ReleaseCode(names: seq<Name>, consumed: set<Name>): seq<Code> {
    if names == [] then []
    else
      var n := |names| - 1;
      ReleaseCode(names[..n], consumed) + if names[n] in consumed then [] else [CRelease(names[n])]
  }

  /** Releases for the innermost frame, then the next one, down to frame depth. */
  function UnwindCode(frames: seq<seq<Name>>, depth: nat, consumed: set<Name>): seq<Code>
    decreases |frames|
  {
    if |frames| <= depth then []
    else
      var n := |frames| - 1;
      ReleaseCode(frames[n], consumed) + UnwindCode(frames[..n], depth, consumed)
  }

  function ScopeReleases(c: Ctx): seq<Code> {
    if c.frames == [] then [] else ReleaseCode(c.frames[|c.frames| - 1], c.consumed)
  }

  function LoopReleases(c: Ctx): seq<Code> {
    if c.loops == [] then [] else UnwindCode(c.frames, c.loops[|c.loops| - 1], c.consumed)
  }

  function ReturnedVar(e: Option<Expr>): set<Name> {
    if e.Some? && e.value.VarRef? then {e.value.x} else {}
  }

  function EmitReturn(e: Option<Expr>, c: Ctx): seq<Code> {
    ReleaseCode(Flatten(c.frames), c.consumed + ReturnedVar(e)) + [CReturn(e)]
  }

  function EmitDecl(x: Name, init: Expr, c: Ctx): Emitted {
    Emitted([CDeclare(x, init)] + if IsBorrowed(init) then [CRetain(x)] else [], Track(c, x))
  }

  function EmitAssign(x: Name, rhs: Expr, c: Ctx): Emitted {
    if Tracked(c, x) then
      Emitted((if rhs.VarRef? && Tracked(c, rhs.x) then [CRetain(rhs.x)] else []) + [CRelease(x), CAssign(x, rhs)],
              c.(consumed := c.consumed - {x}))
    else Emitted([CAssign(x, rhs)], c)
  }

  function EmitStoreIvar(slot: nat, rhs: Expr, c: Ctx): Emitted {
    if rhs.VarRef? then
      var retained := rhs.x in c.params;
      Emitted((if retained then [CRetain(rhs.x)] else []) + [CReleaseIvar(slot), CSetIvar(slot, rhs.x)],
              if !retained && Tracked(c, rhs.x) then c.(consumed := c.consumed + {rhs.x}) else c)
    else
      var tmp := Temp(c.temps);
      Emitted([CDeclare(tmp, rhs), CReleaseIvar(slot), CSetIvar(slot, tmp)], c.(temps := c.temps + 1))
  }

  predicate EndsInReturn(body: seq<Stmt>) {
    body != [] && body[|body| - 1].Return?
  }

  /** The context in which the body of a @synchronized block is emitted. */
  function SyncCtx(c: Ctx): Ctx {
    Push(c.(syncs := c.syncs + 1), [SyncVar(c.syncs + 1)])
  }

  /** The statements of a scope whose frame has been pushed, and the releases at its end;
      a scope that ends in a return leaves those to the return. */
  function EmitScope(body: seq<Stmt>, c: Ctx): Emitted
    decreases body, 1
  {
    var inner := EmitBody(body, c);
    Emitted(inner.code + (if EndsInReturn(body) then [] else ScopeReleases(inner.ctx)), Pop(inner.ctx))
  }

  function RetainCode(names: seq<Name>): seq<Code> {
    seq(|names|, i requires 0 <= i < |names| => CRetain(names[i]))
  }

  /** The statements between the braces of a compound statement. */
  function EmitCompound(body: seq<Stmt>, retains: seq<Name>, c: Ctx): Emitted
    decreases body, 2
  {
    var scope := EmitScope(body, Push(c, retains));
    Emitted(RetainCode(retains) + scope.code, scope.ctx)
  }

  function EmitSync(lock: Expr, body: seq<Stmt>, c: Ctx): Emitted
    decreases body, 2
  {
    var scope := EmitScope(body, SyncCtx(c));
    Emitted([CBlock([CLock(SyncVar(c.syncs + 1), lock)] + scope.code)], scope.ctx)
  }

  /** The statements between the braces of a branch or loop body. */
  function EmitBranch(s: Stmt, c: Ctx): Emitted
    decreases s, 1
  {
    if s.Block? then EmitCompound(s.body, [], c) else EmitStmt(s, c)
  }

  function EmitLoop(s: Stmt, c: Ctx): Emitted
    decreases s, 2
  {
    var b := EmitBranch(s, PushLoop(c));
    Emitted(b.code, PopLoop(b.ctx))
  }

  function EmitStmt(s: Stmt, c: Ctx): Emitted
    decreases s, 0
  {
    match s
    case Decl(x, init) => EmitDecl(x, init, c)
    case Assign(x, rhs) => EmitAssign(x, rhs, c)
    case StoreIvar(slot, rhs) => EmitStoreIvar(slot, rhs, c)
    case Block(body) =>
      var e := EmitCompound(body, [], c);
      Emitted([CBlock(e.code)], e.ctx)
    case Sync(lock, body) => EmitSync(lock, body, c)
    case If(thn, els) =>
      var t := EmitBranch(thn, c);
      if els.None? then Emitted([CIf(t.code, [])], t.ctx)
      else
        var e := EmitBranch(els.value, t.ctx);
        Emitted([CIf(t.code, e.code)], e.ctx)
    case While(loop) =>
      var b := EmitLoop(loop, c);
      Emitted([CWhile(b.code)], b.ctx)
    case DoWhile(loop) =>
      var b := EmitLoop(loop, c);
      Emitted([CDo(b.code)], b.ctx)
    case Break => Emitted(LoopReleases(c) + [CBreak], c)
    case Continue => Emitted(LoopReleases(c) + [CContinue], c)
    case Return(e) => Emitted(EmitReturn(e, c), c)
    case Other => Emitted([COther], c)
  }

  function EmitBody(body: seq<Stmt>, c: Ctx): Emitted
    decreases body, 0
  {
    if body == [] then Emitted([], c)
    else
      var n := |body| - 1;
      var before := EmitBody(body[..n], c);
      var last := EmitStmt(body[n], before.ctx);
      Emitted(before.code + last.code, last.ctx)
  }

  /** The context in which the body of a method or function is emitted. */
  function EntryCtx(params: seq<Name>): Ctx {
    Ctx([], {}, [], 0, 0, set x | x in params)
  }

  /** A whole method body: object parameters are retained on entry and tracked. */
  function EmitMethod(params: seq<Name>, body: seq<Stmt>): seq<Code> {
    EmitCompound(body, params, EntryCtx(params)).code
  }
}
