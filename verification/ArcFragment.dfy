/**
 The statements for which the emitted retains and releases balance, and what emission
 does to the context.  A method body is in the fragment if every variable is declared
 with an initialiser of known ownership under a name that is not in scope and was not
 moved away, is reassigned only from owned values or tracked variables, and is moved
 into an ivar at most once, on the same branch or in the same loop body as its declaration,
 without further use.
 */
module ArcFragment {
  import opened Wrappers
  import opened ArcSyntax
  import opened ArcEmission

  predicate Usable(c: Ctx, x: Name) {
    Tracked(c, x) && x !in c.consumed
  }

  /** Initialisers whose ownership the emitter gets right. */
  predicate GoodInit(e: Expr, c: Ctx) {
    match e
    case IvarRef(_) => false
    case VarRef(y) => Usable(c, y)
    case _ => true
  }

  /** Values that may be assigned to a tracked variable. */
  predicate GoodRhs(e: Expr, c: Ctx) {
    match e
    case NilExpr => true
    case Fresh => true
    case VarRef(y) => Usable(c, y)
    case _ => false
  }

  predicate GoodLock(e: Expr, c: Ctx, slots: nat) {
    match e
    case Fresh => false
    case VarRef(y) => Usable(c, y)
    case IvarRef(slot) => slot < slots
    case _ => true
  }

  predicate GoodReturn(e: Expr, c: Ctx, slots: nat) {
    match e
    case VarRef(y) => Usable(c, y)
    case IvarRef(slot) => slot < slots
    case _ => true
  }

  predicate IsMove(s: Stmt, c: Ctx) {
    s.StoreIvar? && s.rhs.VarRef? && s.rhs.x !in c.params
  }

  /** x was declared since the innermost branch or loop body began, d frames deep. */
  predicate DeclaredSince(c: Ctx, x: Name, d: nat) {
    d <= |c.frames| && x in Flatten(c.frames) && x !in Flatten(c.frames[..d])
  }

  predicate Good(s: Stmt, c: Ctx, slots: nat, d: nat)
    decreases s, 0
  {
    match s
    case Decl(x, init) => x.Local? && !Tracked(c, x) && x !in c.consumed && GoodInit(init, c)
    case Assign(x, rhs) => Usable(c, x) && GoodRhs(rhs, c)
    case StoreIvar(slot, rhs) =>
      && slot < slots && GoodRhs(rhs, c)
      && (IsMove(s, c) ==> rhs.x.Local? && DeclaredSince(c, rhs.x, d))
    case Block(body) => GoodBody(body, Push(c, []), slots, d)
    case Sync(lock, body) =>
      GoodLock(lock, c, slots) && GoodBody(body, SyncCtx(c), slots, d)
    case If(thn, els) =>
      GoodBranch(thn, c, slots) && (els.Some? ==> GoodBranch(els.value, EmitBranch(thn, c).ctx, slots))
    case While(loop) => GoodBranch(loop, PushLoop(c), slots)
    case DoWhile(loop) => GoodBranch(loop, PushLoop(c), slots)
    case Break => c.loops != []
    case Continue => c.loops != []
    case Return(e) => e.Some? ==> GoodReturn(e.value, c, slots)
    case Other => true
  }

  /** A branch without braces is not a declaration. */
  predicate GoodBranch(s: Stmt, c: Ctx, slots: nat)
    decreases s, 1
  {
    !s.Decl? && Good(s, c, slots, |c.frames|)
  }

  predicate GoodBody(body: seq<Stmt>, c: Ctx, slots: nat, d: nat)
    decreases body, 0
  {
    body == [] ||
    (GoodBody(body[..|body| - 1], c, slots, d) &&
     Good(body[|body| - 1], EmitBody(body[..|body| - 1], c).ctx, slots, d))
  }

  predicate GoodMethod(params: seq<Name>, body: seq<Stmt>, slots: nat) {
    && Distinct(params) && (forall x :: x in params ==> x.Local?)
    && GoodBody(body, Push(EntryCtx(params), params), slots, 0)
  }

  // ---------- distinct names ----------

  lemma FlattenPush(frames: seq<seq<Name>>, frame: seq<Name>)
    ensures Flatten(frames + [frame]) == Flatten(frames) + frame
  {
    assert (frames + [frame])[..|frames|] == frames;
  }

  lemma FlattenLast(frames: seq<seq<Name>>)
    requires frames != []
    ensures Flatten(frames) == Flatten(frames[..|frames| - 1]) + frames[|frames| - 1]
  {
  }

  lemma {:induction false} FlattenPrefix(frames: seq<seq<Name>>, d: nat)
    requires d <= |frames|
    ensures forall x :: x in Flatten(frames[..d]) ==> x in Flatten(frames)
    decreases |frames|
  {
    if d < |frames| {
      var front := frames[..|frames| - 1];
      FlattenPrefix(front, d);
      assert front[..d] == frames[..d];
      FlattenLast(frames);
    } else {
      assert frames[..d] == frames;
    }
  }

  // ---------- what emission does to the context ----------

  /** Facts about the context that hold wherever a statement is emitted. */
  ghost predicate Sound(c: Ctx) {
    && c.frames != []
    && Distinct(Flatten(c.frames))
    && (forall x :: x in Flatten(c.frames) && x.SyncVar? ==> x.k <= c.syncs)
    && (forall x :: x in Flatten(c.frames) ==> !x.Temp?)
    && (forall x :: x in c.consumed ==> x.Local?)
    && (forall i :: 0 <= i < |c.loops| ==> c.loops[i] <= |c.frames|)
  }

  /** Emission leaves the variables of these frames as they were. */
  ghost predicate SameFor(frames: seq<seq<Name>>, c: Ctx, c': Ctx) {
    forall x :: x in Flatten(frames) ==> (x in c.consumed <==> x in c'.consumed)
  }

  /** Only the innermost frame grows, and no variable of the first d frames is moved away. */
  ghost predicate Extends(c: Ctx, c': Ctx, d: nat) {
    && Sound(c') && d <= |c.frames|
    && c'.loops == c.loops && c'.params == c.params && c'.syncs >= c.syncs
    && |c'.frames| == |c.frames| > 0
    && c'.frames[..|c.frames| - 1] == c.frames[..|c.frames| - 1]
    && SameFor(c.frames[..d], c, c')
  }

  /** A branch or loop body leaves every frame as it was. */
  ghost predicate Keeps(c: Ctx, c': Ctx) {
    Extends(c, c', |c.frames|) && c'.frames == c.frames && SameFor(c.frames, c, c')
  }

  lemma KeepsExtends(c: Ctx, c': Ctx, d: nat)
    requires Keeps(c, c') && d <= |c.frames|
    ensures Extends(c, c', d)
  {
    FlattenPrefix(c.frames, d);
  }

  lemma ExtendsKeeps(c: Ctx, c': Ctx)
    requires Extends(c, c', |c.frames|) && c'.frames == c.frames
    ensures Keeps(c, c')
  {
    assert c.frames[..|c.frames|] == c.frames;
  }

  lemma KeepsThen(c: Ctx, c1: Ctx, c2: Ctx)
    requires Keeps(c, c1) && Keeps(c1, c2)
    ensures Keeps(c, c2)
  {
  }

  lemma ExtendsThen(c: Ctx, c1: Ctx, c2: Ctx, d: nat)
    requires Extends(c, c1, d) && Extends(c1, c2, d) && d < |c.frames|
    ensures Extends(c, c2, d)
  {
    FirstFrames(c.frames, c1.frames, d);
  }

  lemma FirstFrames(frames: seq<seq<Name>>, frames': seq<seq<Name>>, d: nat)
    requires d < |frames| == |frames'| && frames'[..|frames| - 1] == frames[..|frames| - 1]
    ensures frames'[..d] == frames[..d]
  {
    assert frames'[..|frames| - 1][..d] == frames'[..d] && frames[..|frames| - 1][..d] == frames[..d];
  }

  lemma DistinctAppend(a: seq<Name>, b: seq<Name>)
    ensures Distinct(a + b) <==> Distinct(a) && Distinct(b) && (forall x :: x in a ==> x !in b)
  {
    if Distinct(a + b) {
      forall i, j | 0 <= i < j < |a| ensures a[i] != a[j] {
        assert (a + b)[i] != (a + b)[j];
      }
      forall i, j | 0 <= i < j < |b| ensures b[i] != b[j] {
        assert (a + b)[|a| + i] != (a + b)[|a| + j];
      }
      forall i, j | 0 <= i < |a| && 0 <= j < |b| ensures a[i] != b[j] {
        assert (a + b)[i] != (a + b)[|a| + j];
      }
    }
    if Distinct(a) && Distinct(b) && (forall x :: x in a ==> x !in b) {
      forall i, j | 0 <= i < j < |a + b| ensures (a + b)[i] != (a + b)[j] {
        if i < |a| <= j {
          assert a[i] in a && b[j - |a|] in b;
        }
      }
    }
  }

  /** Leaving a scope: its variables are gone, and the outer frames are as they were. */
  lemma LeaveScope(c: Ctx, frame: seq<Name>, c': Ctx, d: nat)
    requires Sound(c) && d <= |c.frames| && Extends(Push(c, frame), c', d)
    ensures Extends(c, Pop(c'), d) && Pop(c').frames == c.frames
  {
    var n := |c.frames|;
    assert Push(c, frame).frames[..n] == c.frames && Push(c, frame).frames[..d] == c.frames[..d];
    assert c'.frames[..n] == c.frames;
    FlattenLast(c'.frames);
    DistinctAppend(Flatten(c.frames), c'.frames[n]);
    FlattenPrefix(c'.frames, n);
  }

  lemma SoundPush(c: Ctx, frame: seq<Name>)
    requires Sound(c) || (c.frames == [] && c.consumed == {} && c.loops == [])
    requires Distinct(frame) && (forall x :: x in frame ==> x !in Flatten(c.frames))
    requires forall x :: x in frame ==> !x.Temp? && (x.SyncVar? ==> x.k <= c.syncs)
    ensures Sound(Push(c, frame))
  {
    FlattenPush(c.frames, frame);
    DistinctAppend(Flatten(c.frames), frame);
  }

  lemma DeclExtends(x: Name, init: Expr, c: Ctx)
    requires Sound(c) && x.Local? && !Tracked(c, x)
    ensures Extends(c, Track(c, x), |c.frames|) && Flatten(Track(c, x).frames) == Flatten(c.frames) + [x]
  {
    var n := |c.frames| - 1;
    var c' := Track(c, x);
    FlattenLast(c.frames);
    FlattenLast(c'.frames);
    assert x !in c.frames[n];
    assert c'.frames[..n] == c.frames[..n] && c'.frames[n] == c.frames[n] + [x];
    assert Flatten(c'.frames) == Flatten(c.frames) + [x];
    DistinctAppend(Flatten(c.frames), [x]);
  }

  lemma MoveExtends(slot: nat, rhs: Expr, c: Ctx, slots: nat, d: nat)
    requires Sound(c) && d <= |c.frames| && Good(StoreIvar(slot, rhs), c, slots, d)
    ensures var c' := EmitStoreIvar(slot, rhs, c).ctx; Extends(c, c', d) && c'.frames == c.frames
  {
  }

  lemma {:induction false} StmtExtends(s: Stmt, c: Ctx, slots: nat, d: nat)
    requires Sound(c) && d <= |c.frames| && Good(s, c, slots, d)
    ensures Extends(c, EmitStmt(s, c).ctx, d)
    ensures !s.Decl? ==> EmitStmt(s, c).ctx.frames == c.frames
    decreases s, 1
  {
    match s
    case Decl(x, init) => DeclKeeps(x, init, c, d);
    case Assign(x, rhs) => assert c.consumed - {x} == c.consumed;
    case StoreIvar(slot, rhs) => MoveExtends(slot, rhs, c, slots, d);
    case Block(body) => CompoundExtends(body, c, slots, d);
    case Sync(lock, body) => SyncExtends(body, c, slots, d);
    case If(thn, els) => IfExtends(s, c, slots, d);
    case While(loop) => LoopExtends(loop, c, slots, d);
    case DoWhile(loop) => LoopExtends(loop, c, slots, d);
    case _ =>
  }

  lemma DeclKeeps(x: Name, init: Expr, c: Ctx, d: nat)
    requires Sound(c) && x.Local? && !Tracked(c, x) && d <= |c.frames|
    ensures Extends(c, Track(c, x), d)
  {
    DeclExtends(x, init, c);
  }

  lemma {:induction false} IfExtends(s: Stmt, c: Ctx, slots: nat, d: nat)
    requires Sound(c) && d <= |c.frames| && s.If? && Good(s, c, slots, d)
    ensures Extends(c, EmitStmt(s, c).ctx, d) && EmitStmt(s, c).ctx.frames == c.frames
    decreases s, 0
  {
    BranchKeeps(s.thn, c, slots);
    if s.els.Some? {
      BranchKeeps(s.els.value, EmitBranch(s.thn, c).ctx, slots);
      KeepsThen(c, EmitBranch(s.thn, c).ctx, EmitStmt(s, c).ctx);
    }
    KeepsExtends(c, EmitStmt(s, c).ctx, d);
  }

  lemma {:induction false} LoopExtends(loop: Stmt, c: Ctx, slots: nat, d: nat)
    requires Sound(c) && d <= |c.frames| && GoodBranch(loop, PushLoop(c), slots)
    ensures Extends(c, EmitLoop(loop, c).ctx, d) && EmitLoop(loop, c).ctx.frames == c.frames
    decreases loop, 3
  {
    BranchKeeps(loop, PushLoop(c), slots);
    PopLoopKeeps(c, EmitBranch(loop, PushLoop(c)).ctx);
    KeepsExtends(c, EmitLoop(loop, c).ctx, d);
  }

  lemma PopLoopKeeps(c: Ctx, c': Ctx)
    requires Sound(c) && Keeps(PushLoop(c), c')
    ensures Keeps(c, PopLoop(c'))
  {
    assert c'.loops[..|c.loops|] == c.loops;
  }

  lemma {:induction false} CompoundExtends(body: seq<Stmt>, c: Ctx, slots: nat, d: nat)
    requires Sound(c) && d <= |c.frames| && GoodBody(body, Push(c, []), slots, d)
    ensures Sound(Push(c, []))
    ensures var c' := EmitCompound(body, [], c).ctx; Extends(c, c', d) && c'.frames == c.frames
    decreases body, 1
  {
    SoundPush(c, []);
    BodyExtends(body, Push(c, []), slots, d);
    LeaveScope(c, [], EmitBody(body, Push(c, [])).ctx, d);
  }

  lemma SoundSync(c: Ctx)
    requires Sound(c)
    ensures Sound(c.(syncs := c.syncs + 1)) && Sound(SyncCtx(c)) && !Tracked(c, SyncVar(c.syncs + 1))
  {
    SoundPush(c.(syncs := c.syncs + 1), [SyncVar(c.syncs + 1)]);
  }

  lemma SyncCounted(c: Ctx, c': Ctx, d: nat)
    requires Sound(c) && Extends(c.(syncs := c.syncs + 1), c', d)
    ensures Extends(c, c', d)
  {
  }

  lemma {:induction false} SyncExtends(body: seq<Stmt>, c: Ctx, slots: nat, d: nat)
    requires Sound(c) && d <= |c.frames| && GoodBody(body, SyncCtx(c), slots, d)
    ensures var c' := EmitScope(body, SyncCtx(c)).ctx; Extends(c, c', d) && c'.frames == c.frames
    decreases body, 1
  {
    SoundSync(c);
    BodyExtends(body, SyncCtx(c), slots, d);
    LeaveScope(c.(syncs := c.syncs + 1), [SyncVar(c.syncs + 1)], EmitBody(body, SyncCtx(c)).ctx, d);
    SyncCounted(c, Pop(EmitBody(body, SyncCtx(c)).ctx), d);
  }

  lemma {:induction false} BranchKeeps(s: Stmt, c: Ctx, slots: nat)
    requires Sound(c) && GoodBranch(s, c, slots)
    ensures Keeps(c, EmitBranch(s, c).ctx)
    decreases s, 2
  {
    if s.Block? {
      CompoundExtends(s.body, c, slots, |c.frames|);
    } else {
      StmtExtends(s, c, slots, |c.frames|);
    }
    ExtendsKeeps(c, EmitBranch(s, c).ctx);
  }

  lemma {:induction false} BodyExtends(body: seq<Stmt>, c: Ctx, slots: nat, d: nat)
    requires Sound(c) && d < |c.frames| && GoodBody(body, c, slots, d)
    ensures Extends(c, EmitBody(body, c).ctx, d)
    decreases body, 0
  {
    if body != [] {
      var n := |body| - 1;
      BodyExtends(body[..n], c, slots, d);
      StmtExtends(body[n], EmitBody(body[..n], c).ctx, slots, d);
      ExtendsThen(c, EmitBody(body[..n], c).ctx, EmitBody(body, c).ctx, d);
    }
  }
}
