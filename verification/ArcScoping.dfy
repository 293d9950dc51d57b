/**
 The emitted C is well scoped: it names a variable only where it is declared, and declares
 none under a name that is visible already, if the source is so.  That is why one
 environment for a whole method, without blocks, is enough to run it.
 */
module ArcScoping {
  import opened Wrappers
  import opened ObjectHeap
  import opened ArcSyntax
  import opened ArcEmission
  import opened ArcFragment
  import opened ArcMachine

  function Uses(e: Expr): set<Name> {
    if e.VarRef? then {e.x} else {}
  }

  // ---------- scopes in C ----------

  /** The names visible after a statement; None if it names one that is not visible or
      declares one that is. */
  function CodeScope(c: Code, vis: set<Name>): Option<set<Name>>
    decreases c, 1
  {
    match c
    case CBlock(body) => if SeqScope(body, vis).Some? then Some(vis) else None
    case CRetain(x) => if x in vis then Some(vis) else None
    case CRelease(x) => if x in vis then Some(vis) else None
    case CSetIvar(_, x) => if x in vis then Some(vis) else None
    case CDeclare(x, e) => if x !in vis && Uses(e) <= vis then Some(vis + {x}) else None
    case CLock(x, e) => if x !in vis && Uses(e) <= vis then Some(vis + {x}) else None
    case CAssign(x, e) => if x in vis && Uses(e) <= vis then Some(vis) else None
    case CIf(thn, els) => if SeqScope(thn, vis).Some? && SeqScope(els, vis).Some? then Some(vis) else None
    case CWhile(body) => if SeqScope(body, vis).Some? then Some(vis) else None
    case CDo(body) => if SeqScope(body, vis).Some? then Some(vis) else None
    case CReturn(e) => if e.Some? && !(Uses(e.value) <= vis) then None else Some(vis)
    case _ => Some(vis)
  }

  function SeqScope(cs: seq<Code>, vis: set<Name>): Option<set<Name>>
    decreases cs, 0
  {
    if cs == [] then Some(vis)
    else
      var v := CodeScope(cs[0], vis);
      if v.None? then None else SeqScope(cs[1..], v.value)
  }

  lemma {:induction false} SeqScopeAppend(a: seq<Code>, b: seq<Code>, vis: set<Name>)
    ensures SeqScope(a + b, vis) == if SeqScope(a, vis).None? then None else SeqScope(b, SeqScope(a, vis).value)
    decreases |a|
  {
    if a == [] {
      assert a + b == b;
    } else {
      assert (a + b)[0] == a[0] && (a + b)[1..] == a[1..] + b;
      if CodeScope(a[0], vis).Some? {
        SeqScopeAppend(a[1..], b, CodeScope(a[0], vis).value);
      }
    }
  }

  lemma SeqScopeOne(c: Code, vis: set<Name>)
    ensures SeqScope([c], vis) == CodeScope(c, vis)
  {
    if CodeScope(c, vis).Some? {
      assert SeqScope([c][1..], CodeScope(c, vis).value) == CodeScope(c, vis);
    }
  }

  // ---------- scopes in the source ----------

  /** The same for the source, whose names are locals and parameters; the branches of an if
      and the bodies of loops are not declarations. */
  function StmtScope(s: Stmt, vis: set<Name>): Option<set<Name>>
    decreases s, 0
  {
    match s
    case Decl(x, init) => if x.Local? && x !in vis && Uses(init) <= vis then Some(vis + {x}) else None
    case Assign(x, rhs) => if x in vis && Uses(rhs) <= vis then Some(vis) else None
    case StoreIvar(_, rhs) => if Uses(rhs) <= vis then Some(vis) else None
    case Block(body) => if BodyScope(body, vis).Some? then Some(vis) else None
    case Sync(lock, body) => if Uses(lock) <= vis && BodyScope(body, vis).Some? then Some(vis) else None
    case If(thn, els) =>
      if BranchScoped(thn, vis) && (els.Some? ==> BranchScoped(els.value, vis)) then Some(vis) else None
    case While(loop) => if BranchScoped(loop, vis) then Some(vis) else None
    case DoWhile(loop) => if BranchScoped(loop, vis) then Some(vis) else None
    case Return(e) => if e.Some? && !(Uses(e.value) <= vis) then None else Some(vis)
    case _ => Some(vis)
  }

  predicate BranchScoped(s: Stmt, vis: set<Name>)
    decreases s, 1
  {
    !s.Decl? && StmtScope(s, vis).Some?
  }

  function BodyScope(body: seq<Stmt>, vis: set<Name>): Option<set<Name>>
    decreases body, 0
  {
    if body == [] then Some(vis)
    else
      var before := BodyScope(body[..|body| - 1], vis);
      if before.None? then None else StmtScope(body[|body| - 1], before.value)
  }

  // ---------- emission keeps scopes ----------

  function Locals(vis: set<Name>): set<Name> {
    set x | x in vis && x.Local?
  }

  /** The emitter at a place where vis is visible: the variables that it may release are
      visible, and the next lock variable and the next temporary are not. */
  ghost predicate Placed(c: Ctx, vis: set<Name>) {
    && c.frames != []
    && (forall x :: x in Flatten(c.frames) ==> x in vis)
    && (forall x :: x in vis && x.SyncVar? ==> x.k <= c.syncs)
    && (forall x :: x in vis && x.Temp? ==> x.k < c.temps)
  }

  /** What emission does to the context: only the innermost frame grows. */
  ghost predicate Onward(c: Ctx, c': Ctx) {
    && c'.syncs >= c.syncs && c'.temps >= c.temps
    && |c'.frames| == |c.frames| > 0
    && c'.frames[..|c.frames| - 1] == c.frames[..|c.frames| - 1]
  }

  /** The emitted code is well scoped, and afterwards the same source names are visible. */
  ghost predicate Scoped(e: Emitted, c: Ctx, vis: set<Name>, after: set<Name>) {
    var r := SeqScope(e.code, vis);
    && r.Some? && vis <= r.value && Locals(r.value) == after
    && Placed(e.ctx, r.value) && Onward(c, e.ctx)
  }

  lemma {:induction false} ReleasesScoped(names: seq<Name>, consumed: set<Name>, vis: set<Name>)
    requires forall x :: x in names ==> x in vis
    ensures SeqScope(ReleaseCode(names, consumed), vis) == Some(vis)
  {
    if names != [] {
      var n := |names| - 1;
      ReleasesScoped(names[..n], consumed, vis);
      SeqScopeOne(CRelease(names[n]), vis);
      SeqScopeAppend(ReleaseCode(names[..n], consumed), if names[n] in consumed then [] else [CRelease(names[n])], vis);
    }
  }

  lemma {:induction false} UnwindScoped(frames: seq<seq<Name>>, d: nat, consumed: set<Name>, vis: set<Name>)
    requires forall x :: x in Flatten(frames) ==> x in vis
    ensures SeqScope(UnwindCode(frames, d, consumed), vis) == Some(vis)
    decreases |frames|
  {
    if |frames| > d {
      var n := |frames| - 1;
      FlattenLast(frames);
      ReleasesScoped(frames[n], consumed, vis);
      UnwindScoped(frames[..n], d, consumed, vis);
      SeqScopeAppend(ReleaseCode(frames[n], consumed), UnwindCode(frames[..n], d, consumed), vis);
    }
  }

  lemma {:induction false} RetainsScoped(names: seq<Name>, vis: set<Name>)
    requires forall x :: x in names ==> x in vis
    ensures SeqScope(RetainCode(names), vis) == Some(vis)
  {
    if names != [] {
      var n := |names| - 1;
      RetainsScoped(names[..n], vis);
      assert RetainCode(names) == RetainCode(names[..n]) + [CRetain(names[n])];
      SeqScopeOne(CRetain(names[n]), vis);
      SeqScopeAppend(RetainCode(names[..n]), [CRetain(names[n])], vis);
    }
  }

  lemma DeclScoped(x: Name, init: Expr, c: Ctx, vis: set<Name>)
    requires Placed(c, vis) && x.Local? && x !in vis && Uses(init) <= vis
    ensures Scoped(EmitDecl(x, init, c), c, vis, Locals(vis) + {x})
  {
    var tail := if IsBorrowed(init) then [CRetain(x)] else [];
    SeqScopeOne(CDeclare(x, init), vis);
    SeqScopeOne(CRetain(x), vis + {x});
    SeqScopeAppend([CDeclare(x, init)], tail, vis);
    TrackPlaced(x, c, vis);
  }

  lemma TrackPlaced(x: Name, c: Ctx, vis: set<Name>)
    requires Placed(c, vis) && x.Local?
    ensures Placed(Track(c, x), vis + {x}) && Onward(c, Track(c, x))
  {
    var n := |c.frames| - 1;
    FlattenLast(c.frames);
    FlattenLast(Track(c, x).frames);
    assert x !in c.frames[n] ==> c.frames[n := c.frames[n] + [x]][..n] == c.frames[..n];
  }

  lemma AssignScoped(x: Name, rhs: Expr, c: Ctx, vis: set<Name>)
    requires Placed(c, vis) && x in vis && Uses(rhs) <= vis
    ensures Scoped(EmitAssign(x, rhs, c), c, vis, Locals(vis))
  {
    SeqScopeOne(CAssign(x, rhs), vis);
    if Tracked(c, x) {
      var retain := if rhs.VarRef? && Tracked(c, rhs.x) then [CRetain(rhs.x)] else [];
      SeqScopeOne(CRelease(x), vis);
      SeqScopeAppend([CRelease(x)], [CAssign(x, rhs)], vis);
      if rhs.VarRef? {
        SeqScopeOne(CRetain(rhs.x), vis);
      }
      SeqScopeAppend(retain, [CRelease(x)] + [CAssign(x, rhs)], vis);
      assert [CRelease(x)] + [CAssign(x, rhs)] == [CRelease(x), CAssign(x, rhs)];
    }
  }

  lemma StoreScoped(slot: nat, rhs: Expr, c: Ctx, vis: set<Name>)
    requires Placed(c, vis) && Uses(rhs) <= vis
    ensures Scoped(EmitStoreIvar(slot, rhs, c), c, vis, Locals(vis))
  {
    if rhs.VarRef? {
      var retain := if rhs.x in c.params then [CRetain(rhs.x)] else [];
      SeqScopeOne(CRetain(rhs.x), vis);
      SetScoped(slot, rhs.x, vis);
      SeqScopeAppend(retain, [CReleaseIvar(slot), CSetIvar(slot, rhs.x)], vis);
    } else {
      var tmp := Temp(c.temps);
      SeqScopeOne(CDeclare(tmp, rhs), vis);
      SetScoped(slot, tmp, vis + {tmp});
      SeqScopeAppend([CDeclare(tmp, rhs)], [CReleaseIvar(slot), CSetIvar(slot, tmp)], vis);
      assert [CDeclare(tmp, rhs)] + [CReleaseIvar(slot), CSetIvar(slot, tmp)] ==
             [CDeclare(tmp, rhs), CReleaseIvar(slot), CSetIvar(slot, tmp)];
      assert Locals(vis + {tmp}) == Locals(vis);
    }
  }

  lemma SetScoped(slot: nat, x: Name, vis: set<Name>)
    requires x in vis
    ensures SeqScope([CReleaseIvar(slot), CSetIvar(slot, x)], vis) == Some(vis)
  {
    SeqScopeOne(CReleaseIvar(slot), vis);
    SeqScopeOne(CSetIvar(slot, x), vis);
    SeqScopeAppend([CReleaseIvar(slot)], [CSetIvar(slot, x)], vis);
    assert [CReleaseIvar(slot)] + [CSetIvar(slot, x)] == [CReleaseIvar(slot), CSetIvar(slot, x)];
  }

  lemma ReturnScoped(e: Option<Expr>, c: Ctx, vis: set<Name>)
    requires Placed(c, vis) && (e.Some? ==> Uses(e.value) <= vis)
    ensures SeqScope(EmitReturn(e, c), vis) == Some(vis)
  {
    ReleasesScoped(Flatten(c.frames), c.consumed + ReturnedVar(e), vis);
    SeqScopeOne(CReturn(e), vis);
    SeqScopeAppend(ReleaseCode(Flatten(c.frames), c.consumed + ReturnedVar(e)), [CReturn(e)], vis);
  }

  lemma JumpScoped(jump: Code, c: Ctx, vis: set<Name>)
    requires Placed(c, vis) && (jump.CBreak? || jump.CContinue?)
    ensures SeqScope(LoopReleases(c) + [jump], vis) == Some(vis)
  {
    if c.loops != [] {
      UnwindScoped(c.frames, c.loops[|c.loops| - 1], c.consumed, vis);
    }
    SeqScopeOne(jump, vis);
    SeqScopeAppend(LoopReleases(c), [jump], vis);
  }

  /** Wherever a well-scoped statement is emitted, the code is well scoped, and the scope
      frames of the emitter list visible variables. */
  lemma {:induction false} StmtScoped(s: Stmt, c: Ctx, vis: set<Name>)
    requires Placed(c, vis) && StmtScope(s, Locals(vis)).Some?
    ensures Scoped(EmitStmt(s, c), c, vis, StmtScope(s, Locals(vis)).value)
    ensures !s.Decl? ==> EmitStmt(s, c).ctx.frames == c.frames
    decreases s, 1
  {
    match s
    case Decl(x, init) => DeclScoped(x, init, c, vis);
    case Assign(x, rhs) => AssignScoped(x, rhs, c, vis);
    case StoreIvar(slot, rhs) => StoreScoped(slot, rhs, c, vis);
    case Block(body) =>
      CompoundScoped(body, c, vis);
      SeqScopeOne(CBlock(EmitCompound(body, [], c).code), vis);
    case Sync(lock, body) => SyncScoped(lock, body, c, vis);
    case If(thn, els) => IfScoped(s, c, vis);
    case While(loop) =>
      LoopScoped(loop, c, vis);
      SeqScopeOne(CWhile(EmitLoop(loop, c).code), vis);
    case DoWhile(loop) =>
      LoopScoped(loop, c, vis);
      SeqScopeOne(CDo(EmitLoop(loop, c).code), vis);
    case Break => JumpScoped(CBreak, c, vis);
    case Continue => JumpScoped(CContinue, c, vis);
    case Return(e) => ReturnScoped(e, c, vis);
    case Other => SeqScopeOne(COther, vis);
  }

  lemma {:induction false} BodyScoped(body: seq<Stmt>, c: Ctx, vis: set<Name>)
    requires Placed(c, vis) && BodyScope(body, Locals(vis)).Some?
    ensures Scoped(EmitBody(body, c), c, vis, BodyScope(body, Locals(vis)).value)
    decreases body, 0
  {
    if body != [] {
      var n := |body| - 1;
      var before := EmitBody(body[..n], c);
      BodyScoped(body[..n], c, vis);
      var vis1 := SeqScope(before.code, vis).value;
      StmtScoped(body[n], before.ctx, vis1);
      SeqScopeAppend(before.code, EmitStmt(body[n], before.ctx).code, vis);
    }
  }

  /** A frame that has been pushed is gone after its scope; the names outside stay visible. */
  ghost predicate Closed(e: Emitted, c: Ctx, vis: set<Name>) {
    && SeqScope(e.code, vis).Some?
    && e.ctx.frames == c.frames && e.ctx.syncs >= c.syncs && e.ctx.temps >= c.temps
  }

  lemma {:induction false} ScopeScoped(body: seq<Stmt>, c: Ctx, frame: seq<Name>, vis: set<Name>)
    requires Placed(Push(c, frame), vis) && BodyScope(body, Locals(vis)).Some?
    ensures Closed(EmitScope(body, Push(c, frame)), c, vis)
    decreases body, 1
  {
    var inner := EmitBody(body, Push(c, frame));
    BodyScoped(body, Push(c, frame), vis);
    assert inner.ctx.frames[..|c.frames|] == Push(c, frame).frames[..|c.frames|] == c.frames;
    var tail := if EndsInReturn(body) then [] else ScopeReleases(inner.ctx);
    FlattenLast(inner.ctx.frames);
    var vis1 := SeqScope(inner.code, vis).value;
    ReleasesScoped(inner.ctx.frames[|c.frames|], inner.ctx.consumed, vis1);
    SeqScopeAppend(inner.code, tail, vis);
  }

  lemma {:induction false} CompoundScoped(body: seq<Stmt>, c: Ctx, vis: set<Name>)
    requires Placed(c, vis) && BodyScope(body, Locals(vis)).Some?
    ensures Closed(EmitCompound(body, [], c), c, vis)
    decreases body, 2
  {
    FlattenPush(c.frames, []);
    ScopeScoped(body, c, [], vis);
    assert RetainCode([]) + EmitScope(body, Push(c, [])).code == EmitScope(body, Push(c, [])).code;
  }

  lemma {:induction false} SyncScoped(lock: Expr, body: seq<Stmt>, c: Ctx, vis: set<Name>)
    requires Placed(c, vis) && Uses(lock) <= vis && BodyScope(body, Locals(vis)).Some?
    ensures Scoped(EmitSync(lock, body, c), c, vis, Locals(vis)) && EmitSync(lock, body, c).ctx.frames == c.frames
    decreases body, 2
  {
    var x := SyncVar(c.syncs + 1);
    var c1 := c.(syncs := c.syncs + 1);
    FlattenPush(c.frames, [x]);
    assert Locals(vis + {x}) == Locals(vis);
    ScopeScoped(body, c1, [x], vis + {x});
    var scope := EmitScope(body, SyncCtx(c));
    SeqScopeOne(CLock(x, lock), vis);
    SeqScopeAppend([CLock(x, lock)], scope.code, vis);
    SeqScopeOne(CBlock([CLock(x, lock)] + scope.code), vis);
  }

  lemma {:induction false} BranchCodeScoped(s: Stmt, c: Ctx, vis: set<Name>)
    requires Placed(c, vis) && BranchScoped(s, Locals(vis))
    ensures Closed(EmitBranch(s, c), c, vis)
    decreases s, 2
  {
    if s.Block? {
      CompoundScoped(s.body, c, vis);
    } else {
      StmtScoped(s, c, vis);
    }
  }

  lemma {:induction false} LoopScoped(loop: Stmt, c: Ctx, vis: set<Name>)
    requires Placed(c, vis) && BranchScoped(loop, Locals(vis))
    ensures Closed(EmitLoop(loop, c), c, vis)
    decreases loop, 3
  {
    BranchCodeScoped(loop, PushLoop(c), vis);
  }

  lemma {:induction false} IfScoped(s: Stmt, c: Ctx, vis: set<Name>)
    requires Placed(c, vis) && s.If? && StmtScope(s, Locals(vis)).Some?
    ensures Scoped(EmitStmt(s, c), c, vis, Locals(vis)) && EmitStmt(s, c).ctx.frames == c.frames
    decreases s, 0
  {
    var t := EmitBranch(s.thn, c);
    BranchCodeScoped(s.thn, c, vis);
    if s.els.Some? {
      BranchCodeScoped(s.els.value, t.ctx, vis);
    }
    SeqScopeOne(CIf(t.code, if s.els.Some? then EmitBranch(s.els.value, t.ctx).code else []), vis);
  }

  /** A well-scoped body is emitted as well-scoped C, whose parameters are those of the
      method. */
  lemma MethodScoped(params: seq<Name>, body: seq<Stmt>)
    requires forall x :: x in params ==> x.Local?
    requires BodyScope(body, set x | x in params).Some?
    ensures SeqScope(EmitMethod(params, body), set x | x in params).Some?
  {
    var vis := set x | x in params;
    EntryPlaced(params, vis);
    ScopeScoped(body, EntryCtx(params), params, vis);
    RetainsScoped(params, vis);
    SeqScopeAppend(RetainCode(params), EmitScope(body, Push(EntryCtx(params), params)).code, vis);
  }

  lemma EntryPlaced(params: seq<Name>, vis: set<Name>)
    requires (forall x :: x in params ==> x.Local?) && forall x :: x in vis <==> x in params
    ensures Placed(Push(EntryCtx(params), params), vis) && Locals(vis) == vis
  {
    FlattenPush([], params);
    assert EntryCtx(params).frames + [params] == [params];
  }

  // ---------- what is not visible does not matter ----------

  ghost predicate AgreeOn(st: State, st': State, vis: set<Name>) {
    && st' == st.(env := st'.env)
    && forall x :: x in vis ==> (x in st.env <==> x in st'.env) && (x in st.env ==> st.env[x] == st'.env[x])
  }

  /** Two runs end alike, apart from variables that are not visible. */
  ghost predicate Alike(r: Run, r': Run, vis: set<Name>, after: Option<set<Name>>) {
    && r.exit == r'.exit && after.Some? && vis <= after.value
    && AgreeOn(r.st, r'.st, if r.exit.Normal? then after.value else vis)
  }

  lemma {:induction false} AskAlike(st: State, st': State, vis: set<Name>)
    requires AgreeOn(st, st', vis)
    ensures var a, a' := Ask(st), Ask(st');
      if a.NoAnswer? then a' == a else a'.Answer? && a'.c == a.c && AgreeOn(a.st, a'.st, vis)
    decreases |st.choices|
  {
    if st.choices != [] && st.choices[0].Act? {
      var st1, st1' := st.(choices := st.choices[1..]), st'.(choices := st'.choices[1..]);
      var r := Perform(st.choices[0].deed, st1);
      assert Perform(st.choices[0].deed, st1') == Run(r.exit, r.st.(env := st'.env));
      if r.exit.Normal? {
        AskAlike(r.st, r.st.(env := st'.env), vis);
      }
    }
  }

  lemma EvalAlike(e: Expr, st: State, st': State, vis: set<Name>)
    requires AgreeOn(st, st', vis) && Uses(e) <= vis
    ensures var r, r' := Eval(e, st), Eval(e, st');
      if r.NoVal? then r' == r else r'.Val? && r'.v == r.v && AgreeOn(r.st, r'.st, vis)
  {
    if e.Fresh? || e.Borrowed? {
      AskAlike(st, st', vis);
      var a, a' := Ask(st), Ask(st');
      if a.Answer? && e.Fresh? {
        FreshAlike(a.c, a.st, a'.st, vis);
      }
    }
  }

  lemma FreshAlike(c: Choice, st: State, st': State, vis: set<Name>)
    requires AgreeOn(st, st', vis)
    ensures var r, r' := EvalFresh(c, st), EvalFresh(c, st');
      if r.NoVal? then r' == r else r'.Val? && r'.v == r.v && AgreeOn(r.st, r'.st, vis)
  {
  }

  lemma BindAlike(c: Code, st: State, st': State, vis: set<Name>)
    requires (c.CDeclare? || c.CAssign? || c.CLock?) && CodeScope(c, vis).Some? && AgreeOn(st, st', vis)
    ensures Alike(Exec(c, st), Exec(c, st'), vis, CodeScope(c, vis))
  {
    EvalAlike(c.e, st, st', vis);
    var e, e' := Eval(c.e, st), Eval(c.e, st');
    if e.Val? && c.CLock? {
      LockAlike(c.x, e.v, e.st, e'.st, vis);
    }
  }

  lemma LockAlike(x: Name, v: Ref, st: State, st': State, vis: set<Name>)
    requires AgreeOn(st, st', vis)
    ensures Alike(Lock(x, v, st), Lock(x, v, st'), vis, Some(vis + {x}))
  {
  }

  lemma {:induction false} ExecAlike(c: Code, st: State, st': State, vis: set<Name>)
    requires CodeScope(c, vis).Some? && AgreeOn(st, st', vis)
    ensures Alike(Exec(c, st), Exec(c, st'), vis, CodeScope(c, vis))
    decreases |st.choices|, c, 1
  {
    match c
    case CBlock(body) => SeqAlike(body, st, st', vis);
    case CDeclare(_, _) => BindAlike(c, st, st', vis);
    case CAssign(_, _) => BindAlike(c, st, st', vis);
    case CLock(_, _) => BindAlike(c, st, st', vis);
    case CIf(_, _) => IfAlike(c, st, st', vis);
    case CWhile(body) => WhileAlike(c, body, st, st', vis);
    case CDo(body) => DoAlike(c, body, st, st', vis);
    case CReturn(e) => ReturnAlike(e, st, st', vis);
    case COther => OtherAlike(st, st', vis);
    case CBreak =>
    case CContinue =>
    case _ => CountAlike(c, st, st', vis);
  }

  lemma CountAlike(c: Code, st: State, st': State, vis: set<Name>)
    requires c.CRetain? || c.CRelease? || c.CReleaseIvar? || c.CSetIvar?
    requires CodeScope(c, vis).Some? && AgreeOn(st, st', vis)
    ensures Alike(Exec(c, st), Exec(c, st'), vis, CodeScope(c, vis))
  {
  }

  lemma OtherAlike(st: State, st': State, vis: set<Name>)
    requires AgreeOn(st, st', vis)
    ensures Alike(Exec(COther, st), Exec(COther, st'), vis, Some(vis))
  {
    AskAlike(st, st', vis);
  }

  lemma ReturnAlike(e: Option<Expr>, st: State, st': State, vis: set<Name>)
    requires CodeScope(CReturn(e), vis).Some? && AgreeOn(st, st', vis)
    ensures Alike(Exec(CReturn(e), st), Exec(CReturn(e), st'), vis, Some(vis))
  {
    if e.Some? {
      EvalAlike(e.value, st, st', vis);
    }
  }

  lemma {:induction false} IfAlike(c: Code, st: State, st': State, vis: set<Name>)
    requires c.CIf? && CodeScope(c, vis).Some? && AgreeOn(st, st', vis)
    ensures Alike(Exec(c, st), Exec(c, st'), vis, CodeScope(c, vis))
    decreases |st.choices|, c, 0
  {
    AskAlike(st, st', vis);
    var a, a' := Condition(st), Condition(st');
    if a.Answer? {
      SeqAlike(if a.c.taken then c.thn else c.els, a.st, a'.st, vis);
    }
  }

  lemma {:induction false} WhileAlike(c: Code, body: seq<Code>, st: State, st': State, vis: set<Name>)
    requires c == CWhile(body) && CodeScope(c, vis).Some? && AgreeOn(st, st', vis)
    ensures Alike(Exec(c, st), Exec(c, st'), vis, CodeScope(c, vis))
    decreases |st.choices|, c, 0
  {
    AskAlike(st, st', vis);
    var a, a' := Condition(st), Condition(st');
    if a.Answer? && a.c.taken {
      SeqAlike(body, a.st, a'.st, vis);
      var r, r' := ExecSeq(body, a.st), ExecSeq(body, a'.st);
      if r.exit.Normal? || r.exit.Continued? {
        ExecAlike(c, r.st, r'.st, vis);
      }
    }
  }

  lemma {:induction false} DoAlike(c: Code, body: seq<Code>, st: State, st': State, vis: set<Name>)
    requires c == CDo(body) && CodeScope(c, vis).Some? && AgreeOn(st, st', vis)
    ensures Alike(Exec(c, st), Exec(c, st'), vis, CodeScope(c, vis))
    decreases |st.choices|, c, 0
  {
    SeqAlike(body, st, st', vis);
    var r, r' := ExecSeq(body, st), ExecSeq(body, st');
    if r.exit.Normal? || r.exit.Continued? {
      AskAlike(r.st, r'.st, vis);
      var a, a' := Condition(r.st), Condition(r'.st);
      if a.Answer? && a.c.taken {
        ExecAlike(c, a.st, a'.st, vis);
      }
    }
  }

  lemma {:induction false} SeqAlike(cs: seq<Code>, st: State, st': State, vis: set<Name>)
    requires SeqScope(cs, vis).Some? && AgreeOn(st, st', vis)
    ensures Alike(ExecSeq(cs, st), ExecSeq(cs, st'), vis, SeqScope(cs, vis))
    decreases |st.choices|, cs, 0
  {
    if cs != [] {
      ExecAlike(cs[0], st, st', vis);
      var r, r' := Exec(cs[0], st), Exec(cs[0], st');
      SeqGrows(cs[1..], CodeScope(cs[0], vis).value);
      if r.exit.Normal? {
        SeqAlike(cs[1..], r.st, r'.st, CodeScope(cs[0], vis).value);
      }
    }
  }

  lemma {:induction false} SeqGrows(cs: seq<Code>, vis: set<Name>)
    requires SeqScope(cs, vis).Some?
    ensures vis <= SeqScope(cs, vis).value
    decreases |cs|
  {
    if cs != [] {
      SeqGrows(cs[1..], CodeScope(cs[0], vis).value);
    }
  }

  /** So a run of the emitted method depends on the values of its parameters alone: no
      variable is read before it is declared, and what has gone out of scope is never seen. */
  lemma MethodLexical(params: seq<Name>, body: seq<Stmt>, st: State, st': State)
    requires (forall x :: x in params ==> x.Local?) && BodyScope(body, set x | x in params).Some?
    requires AgreeOn(st, st', set x | x in params)
    ensures var r, r' := ExecSeq(EmitMethod(params, body), st), ExecSeq(EmitMethod(params, body), st');
      r.exit == r'.exit && r'.st == r.st.(env := r'.st.env)
  {
    MethodScoped(params, body);
    SeqAlike(EmitMethod(params, body), st, st', set x | x in params);
  }
}
