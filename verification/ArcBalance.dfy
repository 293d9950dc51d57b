/**
 The emitted retains and releases balance: on every path of the C emitted for a method
 body of the fragment, the count of each object is the number of references to it from
 callers, ivars and the tracked variables in scope, and no freed object is touched.
 */
module ArcBalance {
  import opened Wrappers
  import opened ObjectHeap
  import opened ArcSyntax
  import opened ArcEmission
  import opened ArcFragment
  import opened ArcMachine
  import opened ArcTokens

  /** The reference that a return statement hands to the caller. */
  function Carried(e: Option<Expr>, v: Ref): multiset<Ref> {
    if e.Some? && (e.value.Fresh? || e.value.VarRef? || e.value.NilExpr?) then multiset{v} else multiset{}
  }

  function LoopDepth(c: Ctx): nat
    requires c.loops != []
  {
    c.loops[|c.loops| - 1]
  }

  /** How the code emitted from context c to context c' may end.  Falling through leaves
      the variables of c' in scope, break and continue those outside the loop, return
      none but the returned one. */
  ghost predicate Post(r: Run, w: World, c: Ctx, c': Ctx) {
    match r.exit
    case Normal => Holds(r.st, w, c'.frames, c'.consumed)
    case Broke => BackInLoop(r.st, w, c)
    case Continued => BackInLoop(r.st, w, c)
    case Returned(e, v) => Owns(r.st, w, Carried(e, v))
    case Cut => true
    case Faulted => false
  }

  ghost predicate BackInLoop(st: State, w: World, c: Ctx) {
    && c.loops != [] && LoopDepth(c) <= |c.frames|
    && Holds(st, w, c.frames[..LoopDepth(c)], c.consumed)
  }

  // ---------- runs of releases ----------

  lemma {:induction false} ReleaseRun(names: seq<Name>, consumed: set<Name>, st: State, w: World, held: multiset<Ref>)
    requires Owns(st, w, held + Tokens(names, consumed, st.env))
    requires forall x :: x in names && x !in consumed ==> x in st.env
    ensures var r := ExecSeq(ReleaseCode(names, consumed), st);
      r.exit.Normal? && r.st == st.(heap := r.st.heap) && Owns(r.st, w, held)
  {
    if names == [] {
      assert held + multiset{} == held;
    } else {
      var n := |names| - 1;
      var x := names[n];
      var last := if x in consumed then multiset{} else multiset{Get(st.env, x)};
      assert held + Tokens(names, consumed, st.env) == held + last + Tokens(names[..n], consumed, st.env);
      ReleaseRun(names[..n], consumed, st, w, held + last);
      var code := if x in consumed then [] else [CRelease(x)];
      ExecAppend(ReleaseCode(names[..n], consumed), code, st);
      var r1 := ExecSeq(ReleaseCode(names[..n], consumed), st);
      if x in consumed {
        assert held + last == held;
      } else {
        ReleaseVar(x, r1.st, w, held + last);
        assert held + last - multiset{r1.st.env[x]} == held;
        ExecOne(CRelease(x), r1.st);
      }
    }
  }

  lemma {:induction false} UnwindRun(frames: seq<seq<Name>>, d: nat, consumed: set<Name>, st: State, w: World)
    requires Holds(st, w, frames, consumed) && d <= |frames|
    ensures var r := ExecSeq(UnwindCode(frames, d, consumed), st);
      r.exit.Normal? && r.st == st.(heap := r.st.heap) && Holds(r.st, w, frames[..d], consumed)
    decreases |frames|
  {
    if d == |frames| {
      assert frames[..d] == frames;
    } else {
      var n := |frames| - 1;
      LeaveFrame(frames, consumed, st, w);
      ExecAppend(ReleaseCode(frames[n], consumed), UnwindCode(frames[..n], d, consumed), st);
      var r1 := ExecSeq(ReleaseCode(frames[n], consumed), st);
      UnwindRun(frames[..n], d, consumed, r1.st, w);
      assert frames[..n][..d] == frames[..d];
    }
  }

  /** The releases of the innermost frame. */
  lemma LeaveFrame(frames: seq<seq<Name>>, consumed: set<Name>, st: State, w: World)
    requires Holds(st, w, frames, consumed) && frames != []
    ensures var n := |frames| - 1; var r := ExecSeq(ReleaseCode(frames[n], consumed), st);
      r.exit.Normal? && r.st == st.(heap := r.st.heap) && Holds(r.st, w, frames[..n], consumed)
  {
    var n := |frames| - 1;
    FlattenLast(frames);
    TokensAppend(Flatten(frames[..n]), frames[n], consumed, st.env);
    ReleaseRun(frames[n], consumed, st, w, Tokens(Flatten(frames[..n]), consumed, st.env));
  }

  // ---------- statements without parts ----------

  lemma DeclBalanced(x: Name, init: Expr, c: Ctx, st: State, w: World, slots: nat, d: nat)
    requires Sound(c) && Good(Decl(x, init), c, slots, d) && Holds(st, w, c.frames, c.consumed)
    ensures var e := EmitDecl(x, init, c); Post(ExecSeq(e.code, st), w, c, e.ctx)
  {
    DeclExtends(x, init, c);
    UsableIsReadable(init, c, st, w, slots);
    DeclTakes(x, init, c, st, w, Tokens(Flatten(c.frames), c.consumed, st.env));
    var r := ExecSeq(EmitDecl(x, init, c).code, st);
    if r.exit.Normal? {
      HoldsNew(st.env, r.st, w, c.frames, Track(c, x).frames, c.consumed, x);
    }
  }

  /** The declared variable has a reference of its own: the one the initialiser brings, or
      else a retained one. */
  lemma DeclTakes(x: Name, init: Expr, c: Ctx, st: State, w: World, held: multiset<Ref>)
    requires Owns(st, w, held) && Readable(init, st, w, held) && !init.IvarRef?
    ensures var r := ExecSeq(EmitDecl(x, init, c).code, st);
      || r.exit.Cut?
      || (&& r.exit.Normal? && x in r.st.env && r.st.env == st.env[x := r.st.env[x]]
          && Owns(r.st, w, held + multiset{r.st.env[x]}))
  {
    BindVar(x, init, st, w, held);
    var tail := if IsBorrowed(init) then [CRetain(x)] else [];
    ExecStep(CDeclare(x, init), tail, st);
    var r := Exec(CDeclare(x, init), st);
    if r.exit.Normal? && IsBorrowed(init) {
      NothingGiven(init, r.st.env[x], r.st, w, held);
      RetainVar(x, r.st, w, held);
      ExecOne(CRetain(x), r.st);
    }
  }

  lemma UsableIsReadable(e: Expr, c: Ctx, st: State, w: World, slots: nat)
    requires Sound(c) && Holds(st, w, c.frames, c.consumed)
    requires e.VarRef? ==> Usable(c, e.x)
    requires e.IvarRef? ==> e.slot < |Slots(w.cls)|
    ensures Readable(e, st, w, Tokens(Flatten(c.frames), c.consumed, st.env))
  {
    if e.VarRef? {
      TokensTake(Flatten(c.frames), c.consumed, st.env, e.x);
    }
  }

  lemma AssignBalanced(x: Name, rhs: Expr, c: Ctx, st: State, w: World, slots: nat, d: nat)
    requires Sound(c) && Good(Assign(x, rhs), c, slots, d) && Holds(st, w, c.frames, c.consumed)
    ensures var e := EmitAssign(x, rhs, c); Post(ExecSeq(e.code, st), w, c, e.ctx)
  {
    assert c.consumed - {x} == c.consumed;
    if rhs.VarRef? {
      assert [CRetain(rhs.x)] + [CRelease(x), CAssign(x, rhs)] == EmitAssign(x, rhs, c).code;
      AssignVar(x, rhs, c, st, w);
    } else {
      assert EmitAssign(x, rhs, c).code == [CRelease(x), CAssign(x, rhs)];
      AssignOwned(x, rhs, c, st, w);
    }
  }

  /** retain(y); release(x); x = y; */
  lemma AssignVar(x: Name, rhs: Expr, c: Ctx, st: State, w: World)
    requires Sound(c) && Usable(c, x) && Holds(st, w, c.frames, c.consumed)
    requires rhs.VarRef? && Usable(c, rhs.x)
    ensures var r := ExecSeq([CRetain(rhs.x)] + [CRelease(x), CAssign(x, rhs)], st);
      r.exit.Normal? && Holds(r.st, w, c.frames, c.consumed)
  {
    var held := Tokens(Flatten(c.frames), c.consumed, st.env);
    TokensTake(Flatten(c.frames), c.consumed, st.env, rhs.x);
    HeldIsLive(st, w, held, st.env[rhs.x]);
    RetainVar(rhs.x, st, w, held);
    ExecStep(CRetain(rhs.x), [CRelease(x), CAssign(x, rhs)], st);
    SwapVar(x, rhs, c, st, Exec(CRetain(rhs.x), st).st, w);
  }

  /** release(x); x = y; where y has been retained. */
  lemma SwapVar(x: Name, rhs: Expr, c: Ctx, st: State, st1: State, w: World)
    requires Sound(c) && Usable(c, x) && Holds(st, w, c.frames, c.consumed)
    requires rhs.VarRef? && Usable(c, rhs.x) && st1.env == st.env
    requires Owns(st1, w, Tokens(Flatten(c.frames), c.consumed, st.env) + multiset{st.env[rhs.x]})
    ensures var r := ExecSeq([CRelease(x), CAssign(x, rhs)], st1);
      r.exit.Normal? && Holds(r.st, w, c.frames, c.consumed)
  {
    var held := Tokens(Flatten(c.frames), c.consumed, st.env);
    var was, v := st.env[x], st.env[rhs.x];
    TokensTake(Flatten(c.frames), c.consumed, st.env, x);
    SwapOwns(st1, w, held, was, v);
    var h := Release(st1.heap, was).heap;
    SwapRun(x, rhs.x, st1, h);
    HoldsSet(st.env, st1.(heap := h, env := st.env[x := v]), w, c.frames, c.consumed, x, v);
  }

  lemma SwapRun(x: Name, y: Name, st: State, h: Heap)
    requires x in st.env && y in st.env && Release(st.heap, st.env[x]) == Ok(h)
    ensures ExecSeq([CRelease(x), CAssign(x, VarRef(y))], st) ==
            Run(Normal, st.(heap := h, env := st.env[x := st.env[y]]))
  {
    ExecStep(CRelease(x), [CAssign(x, VarRef(y))], st);
    ExecOne(CAssign(x, VarRef(y)), st.(heap := h));
  }

  /** One of two owned references is released. */
  lemma SwapOwns(st: State, w: World, held: multiset<Ref>, was: Ref, v: Ref)
    requires Owns(st, w, held + multiset{v}) && was in held
    ensures var res := Release(st.heap, was);
      res.Ok? && forall env :: Owns(st.(heap := res.heap, env := env), w, held - multiset{was} + multiset{v})
  {
    ReleaseOwns(was, st, w, held + multiset{v});
    assert held + multiset{v} - multiset{was} == held - multiset{was} + multiset{v};
  }

  /** release(x); x = e; where e brings its own reference, or is nil. */
  lemma AssignOwned(x: Name, rhs: Expr, c: Ctx, st: State, w: World)
    requires Sound(c) && Usable(c, x) && Holds(st, w, c.frames, c.consumed)
    requires rhs.NilExpr? || rhs.Fresh?
    ensures var r := ExecSeq([CRelease(x), CAssign(x, rhs)], st);
      r.exit.Cut? || (r.exit.Normal? && Holds(r.st, w, c.frames, c.consumed))
  {
    var held := Tokens(Flatten(c.frames), c.consumed, st.env);
    TokensTake(Flatten(c.frames), c.consumed, st.env, x);
    ReleaseVar(x, st, w, held);
    ExecStep(CRelease(x), [CAssign(x, rhs)], st);
    var st1 := Exec(CRelease(x), st).st;
    BindVar(x, rhs, st1, w, held - multiset{st.env[x]});
    ExecOne(CAssign(x, rhs), st1);
    var r := Exec(CAssign(x, rhs), st1);
    if r.exit.Normal? {
      HoldsSet(st.env, r.st, w, c.frames, c.consumed, x, r.st.env[x]);
    }
  }

  lemma StoreBalanced(slot: nat, rhs: Expr, c: Ctx, st: State, w: World, slots: nat, d: nat)
    requires Sound(c) && Good(StoreIvar(slot, rhs), c, slots, d) && Holds(st, w, c.frames, c.consumed)
    requires slots == |Slots(w.cls)|
    ensures var e := EmitStoreIvar(slot, rhs, c); Post(ExecSeq(e.code, st), w, c, e.ctx)
  {
    if rhs.VarRef? {
      var store := [CReleaseIvar(slot), CSetIvar(slot, rhs.x)];
      assert [] + store == store;
      if rhs.x in c.params {
        StoreParam(slot, rhs.x, c, st, w);
      } else {
        StoreMove(slot, rhs.x, c, st, w);
      }
    } else {
      StoreTemp(slot, rhs, c, st, w, Tokens(Flatten(c.frames), c.consumed, st.env));
    }
  }

  /** A parameter is retained for the ivar and stays in scope. */
  lemma StoreParam(slot: nat, x: Name, c: Ctx, st: State, w: World)
    requires Sound(c) && Usable(c, x) && slot < |Slots(w.cls)| && Holds(st, w, c.frames, c.consumed)
    ensures var r := ExecSeq([CRetain(x)] + [CReleaseIvar(slot), CSetIvar(slot, x)], st);
      r.exit.Normal? && Holds(r.st, w, c.frames, c.consumed)
  {
    var held := Tokens(Flatten(c.frames), c.consumed, st.env);
    var v := st.env[x];
    TokensTake(Flatten(c.frames), c.consumed, st.env, x);
    HeldIsLive(st, w, held, v);
    RetainVar(x, st, w, held);
    ExecStep(CRetain(x), [CReleaseIvar(slot), CSetIvar(slot, x)], st);
    StoreVar(slot, x, Exec(CRetain(x), st).st, w, held + multiset{v});
    assert held + multiset{v} - multiset{v} == held;
  }

  /** A local gives its reference to the ivar. */
  lemma StoreMove(slot: nat, x: Name, c: Ctx, st: State, w: World)
    requires Sound(c) && Usable(c, x) && slot < |Slots(w.cls)| && Holds(st, w, c.frames, c.consumed)
    ensures var r := ExecSeq([CReleaseIvar(slot), CSetIvar(slot, x)], st);
      r.exit.Normal? && Holds(r.st, w, c.frames, c.consumed + {x})
  {
    TokensTake(Flatten(c.frames), c.consumed, st.env, x);
    StoreVar(slot, x, st, w, Tokens(Flatten(c.frames), c.consumed, st.env));
  }

  lemma StoreTemp(slot: nat, rhs: Expr, c: Ctx, st: State, w: World, held: multiset<Ref>)
    requires Sound(c) && Holds(st, w, c.frames, c.consumed) && slot < |Slots(w.cls)|
    requires held == Tokens(Flatten(c.frames), c.consumed, st.env)
    requires rhs.NilExpr? || rhs.Fresh?
    ensures var r := ExecSeq(EmitStoreIvar(slot, rhs, c).code, st);
      r.exit.Cut? || (r.exit.Normal? && Holds(r.st, w, c.frames, c.consumed))
  {
    var tmp := Temp(c.temps);
    var store := [CReleaseIvar(slot), CSetIvar(slot, tmp)];
    assert EmitStoreIvar(slot, rhs, c).code == [CDeclare(tmp, rhs)] + store;
    ExecStep(CDeclare(tmp, rhs), store, st);
    BindVar(tmp, rhs, st, w, held);
    var r := Exec(CDeclare(tmp, rhs), st);
    if r.exit.Normal? {
      var v := r.st.env[tmp];
      assert held + multiset{v} - multiset{v} == held;
      StoreVar(slot, tmp, r.st, w, held + multiset{v});
      TempUntracked(tmp, v, c, st, ExecSeq(store, r.st).st, w);
    }
  }

  lemma TempUntracked(tmp: Name, v: Ref, c: Ctx, st: State, st': State, w: World)
    requires Sound(c) && tmp.Temp? && Holds(st, w, c.frames, c.consumed)
    requires st'.env == st.env[tmp := v]
    requires Owns(st', w, Tokens(Flatten(c.frames), c.consumed, st.env))
    ensures Holds(st', w, c.frames, c.consumed)
  {
    TokensAgree(Flatten(c.frames), c.consumed, st.env, c.consumed, st'.env);
  }

  lemma ReturnBalanced(e: Option<Expr>, c: Ctx, st: State, w: World, slots: nat, d: nat)
    requires Sound(c) && Good(Return(e), c, slots, d) && Holds(st, w, c.frames, c.consumed)
    requires slots == |Slots(w.cls)|
    ensures var r := ExecSeq(EmitReturn(e, c), st); Post(r, w, c, c) && !r.exit.Normal?
  {
    var names := Flatten(c.frames);
    var held := Tokens(names, c.consumed, st.env);
    if e.Some? && e.value.VarRef? {
      TokensSplit(names, c.consumed, st.env, e.value.x);
      var kept := multiset{Get(st.env, e.value.x)};
      assert held == kept + Tokens(names, c.consumed + ReturnedVar(e), st.env);
      ReturnRun(e, c, st, w, kept);
    } else {
      assert c.consumed + ReturnedVar(e) == c.consumed && held == multiset{} + held;
      ReturnRun(e, c, st, w, multiset{});
    }
  }

  lemma JumpRun(code: seq<Code>, jump: Code, st: State)
    requires ExecSeq(code, st).exit.Normal?
    ensures ExecSeq(code + [jump], st) == Exec(jump, ExecSeq(code, st).st)
  {
    ExecAppend(code, [jump], st);
    ExecOne(jump, ExecSeq(code, st).st);
  }

  /** Everything but the returned reference is released before the return. */
  lemma ReturnRun(e: Option<Expr>, c: Ctx, st: State, w: World, kept: multiset<Ref>)
    requires Owns(st, w, kept + Tokens(Flatten(c.frames), c.consumed + ReturnedVar(e), st.env))
    requires forall x :: x in Flatten(c.frames) && x !in c.consumed ==> x in st.env
    requires if e.Some? && e.value.VarRef? then e.value.x in st.env && kept == multiset{st.env[e.value.x]}
             else kept == multiset{}
    requires e.Some? && e.value.IvarRef? ==> e.value.slot < |Slots(w.cls)|
    ensures var r := ExecSeq(EmitReturn(e, c), st); Post(r, w, c, c) && !r.exit.Normal?
  {
    var names, skip := Flatten(c.frames), c.consumed + ReturnedVar(e);
    ReleaseRun(names, skip, st, w, kept);
    JumpRun(ReleaseCode(names, skip), CReturn(e), st);
    ReturnValue(e, c, ExecSeq(ReleaseCode(names, skip), st).st, w, kept);
  }

  lemma ReturnValue(e: Option<Expr>, c: Ctx, st: State, w: World, kept: multiset<Ref>)
    requires Owns(st, w, kept)
    requires if e.Some? && e.value.VarRef? then e.value.x in st.env && kept == multiset{st.env[e.value.x]}
             else kept == multiset{}
    requires e.Some? && e.value.IvarRef? ==> e.value.slot < |Slots(w.cls)|
    ensures var r := Exec(CReturn(e), st); Post(r, w, c, c) && !r.exit.Normal?
  {
    if e.Some? {
      EvalOwns(e.value, st, w, kept);
      var v := Eval(e.value, st);
      if v.Val? {
        assert kept + Given(e.value, v.v) == Carried(e, v.v);
      }
    }
  }

  /** break; or continue; and the releases before it. */
  lemma JumpBalanced(jump: Code, c: Ctx, st: State, w: World)
    requires jump.CBreak? || jump.CContinue?
    requires Sound(c) && c.loops != [] && Holds(st, w, c.frames, c.consumed)
    ensures Post(ExecSeq(LoopReleases(c) + [jump], st), w, c, c)
  {
    LeaveLoop(c, st, w);
    JumpRun(LoopReleases(c), jump, st);
    JumpsOut(jump, c, ExecSeq(LoopReleases(c), st).st, w);
  }

  lemma JumpsOut(jump: Code, c: Ctx, st: State, w: World)
    requires (jump.CBreak? || jump.CContinue?) && BackInLoop(st, w, c)
    ensures Post(Exec(jump, st), w, c, c)
  {
  }

  /** The releases before a jump leave exactly the variables outside the loop. */
  lemma LeaveLoop(c: Ctx, st: State, w: World)
    requires Sound(c) && c.loops != [] && Holds(st, w, c.frames, c.consumed)
    ensures var r := ExecSeq(LoopReleases(c), st); r.exit.Normal? && BackInLoop(r.st, w, c)
  {
    UnwindRun(c.frames, LoopDepth(c), c.consumed, st, w);
  }

  /** A call may change the heap, but not what the variables in scope own. */
  lemma OtherBalanced(c: Ctx, st: State, w: World)
    requires Holds(st, w, c.frames, c.consumed)
    ensures Post(ExecSeq([COther], st), w, c, c)
  {
    ExecOne(COther, st);
    AskOwns(st, w, Tokens(Flatten(c.frames), c.consumed, st.env));
  }

  lemma ConditionHolds(c: Ctx, st: State, w: World)
    requires Holds(st, w, c.frames, c.consumed)
    ensures var a := Condition(st); if a.Answer? then Holds(a.st, w, c.frames, c.consumed) else a.exit.Cut?
  {
    AskOwns(st, w, Tokens(Flatten(c.frames), c.consumed, st.env));
  }

  // ---------- statements with parts ----------

  /** A change of context that the outer frames do not see changes no promise. */
  lemma PostKeeps(r: Run, w: World, c: Ctx, c1: Ctx, c2: Ctx, c3: Ctx)
    requires Post(r, w, c1, c2) && Keeps(c, c1) && Keeps(c2, c3)
    ensures Post(r, w, c, c3)
  {
    if r.exit.Normal? {
      HoldsAgree(r.st, w, c2.frames, c2.consumed, c3.consumed);
    } else if r.exit.Broke? || r.exit.Continued? {
      var d := LoopDepth(c);
      FlattenPrefix(c.frames, d);
      HoldsAgree(r.st, w, c.frames[..d], c1.consumed, c.consumed);
    }
  }

  lemma KeepsSelf(c: Ctx)
    requires Sound(c)
    ensures Keeps(c, c)
  {
  }

  lemma {:induction false} StmtBalanced(s: Stmt, c: Ctx, st: State, w: World, slots: nat, d: nat)
    requires Sound(c) && Deep(c, d) && Good(s, c, slots, d) && slots == |Slots(w.cls)|
    requires Holds(st, w, c.frames, c.consumed)
    ensures var r := ExecSeq(EmitStmt(s, c).code, st);
      Post(r, w, c, EmitStmt(s, c).ctx) && (s.Return? ==> !r.exit.Normal?)
    decreases |st.choices|, s, 0
  {
    match s
    case Decl(x, init) => DeclBalanced(x, init, c, st, w, slots, d);
    case Assign(x, rhs) => AssignBalanced(x, rhs, c, st, w, slots, d);
    case StoreIvar(slot, rhs) => StoreBalanced(slot, rhs, c, st, w, slots, d);
    case Block(body) =>
      CompoundBalanced(body, c, st, w, slots, d);
      ExecOne(CBlock(EmitCompound(body, [], c).code), st);
    case Sync(lock, body) =>
      SyncRun(lock, body, c, st);
      LockHolds(lock, c, st, w, slots);
      SyncBalanced(body, c, Exec(CLock(SyncVar(c.syncs + 1), lock), st), st, w, slots, d);
    case If(thn, els) => IfBalanced(thn, els, c, st, w, slots);
    case While(loop) => WhileStmtBalanced(loop, c, st, w, slots);
    case DoWhile(loop) => DoStmtBalanced(loop, c, st, w, slots);
    case Break => JumpBalanced(CBreak, c, st, w);
    case Continue => JumpBalanced(CContinue, c, st, w);
    case Return(e) => ReturnBalanced(e, c, st, w, slots, d);
    case Other => OtherBalanced(c, st, w);
  }

  predicate GoodIf(thn: Stmt, els: Option<Stmt>, c: Ctx, slots: nat) {
    GoodBranch(thn, c, slots) && (els.Some? ==> GoodBranch(els.value, EmitBranch(thn, c).ctx, slots))
  }

  lemma {:induction false} WhileStmtBalanced(loop: Stmt, c: Ctx, st: State, w: World, slots: nat)
    requires Sound(c) && GoodBranch(loop, PushLoop(c), slots) && slots == |Slots(w.cls)|
    requires Holds(st, w, c.frames, c.consumed)
    ensures var e := EmitLoop(loop, c); Post(ExecSeq([CWhile(e.code)], st), w, c, e.ctx)
    decreases |st.choices|, loop, 4
  {
    var code := CWhile(EmitLoop(loop, c).code);
    WhileBalanced(loop, c, st, w, slots);
    ExecOne(code, st);
    BranchKeeps(loop, PushLoop(c), slots);
    LoopEnds(Exec(code, st), w, c, EmitBranch(loop, PushLoop(c)).ctx);
  }

  lemma {:induction false} DoStmtBalanced(loop: Stmt, c: Ctx, st: State, w: World, slots: nat)
    requires Sound(c) && GoodBranch(loop, PushLoop(c), slots) && slots == |Slots(w.cls)|
    requires Holds(st, w, c.frames, c.consumed)
    ensures var e := EmitLoop(loop, c); Post(ExecSeq([CDo(e.code)], st), w, c, e.ctx)
    decreases |st.choices|, loop, 4
  {
    var code := CDo(EmitLoop(loop, c).code);
    DoBalanced(loop, c, st, w, slots);
    ExecOne(code, st);
    BranchKeeps(loop, PushLoop(c), slots);
    LoopEnds(Exec(code, st), w, c, EmitBranch(loop, PushLoop(c)).ctx);
  }

  lemma {:induction false} IfBalanced(thn: Stmt, els: Option<Stmt>, c: Ctx, st: State, w: World, slots: nat)
    requires Sound(c) && GoodIf(thn, els, c, slots) && slots == |Slots(w.cls)|
    requires Holds(st, w, c.frames, c.consumed)
    ensures var e := EmitStmt(If(thn, els), c); Post(ExecSeq(e.code, st), w, c, e.ctx)
    decreases |st.choices|, thn, 3
  {
    var t := EmitBranch(thn, c);
    var end := EmitStmt(If(thn, els), c).ctx;
    IfRun(thn, els, c, st);
    IfContexts(thn, els, c, slots);
    ConditionHolds(c, st, w);
    var a := Condition(st);
    if a.Answer? && a.c.taken {
      ThenBalanced(thn, c, end, a.st, w, slots);
    } else if a.Answer? {
      HoldsAgree(a.st, w, c.frames, c.consumed, t.ctx.consumed);
      if els.Some? {
        ElseBalanced(els.value, c, t.ctx, a.st, w, slots);
      }
    }
  }

  lemma IfContexts(thn: Stmt, els: Option<Stmt>, c: Ctx, slots: nat)
    requires Sound(c) && GoodIf(thn, els, c, slots)
    ensures var t := EmitBranch(thn, c).ctx; Keeps(c, t) && Keeps(t, EmitStmt(If(thn, els), c).ctx)
  {
    BranchKeeps(thn, c, slots);
    if els.Some? {
      BranchKeeps(els.value, EmitBranch(thn, c).ctx, slots);
    } else {
      KeepsSelf(EmitBranch(thn, c).ctx);
    }
  }

  /** What the emitted if statement does. */
  lemma IfRun(thn: Stmt, els: Option<Stmt>, c: Ctx, st: State)
    ensures var t := EmitBranch(thn, c); var a := Condition(st);
      ExecSeq(EmitStmt(If(thn, els), c).code, st) ==
      if a.NoAnswer? then Run(a.exit, st)
      else if a.c.taken then ExecSeq(t.code, a.st)
      else if els.Some? then ExecSeq(EmitBranch(els.value, t.ctx).code, a.st)
      else Run(Normal, a.st)
  {
    var t := EmitBranch(thn, c);
    var none: seq<Code> := [];
    var other := if els.Some? then EmitBranch(els.value, t.ctx).code else none;
    ExecOne(CIf(t.code, other), st);
    ChoiceRun(t.code, other, st);
  }

  lemma ChoiceRun(thn: seq<Code>, els: seq<Code>, st: State)
    ensures var a := Condition(st);
      Exec(CIf(thn, els), st) ==
      if a.NoAnswer? then Run(a.exit, st)
      else if a.c.taken then ExecSeq(thn, a.st)
      else ExecSeq(els, a.st)
  {
  }

  lemma {:induction false} ThenBalanced(thn: Stmt, c: Ctx, end: Ctx, st: State, w: World, slots: nat)
    requires Sound(c) && GoodBranch(thn, c, slots) && slots == |Slots(w.cls)|
    requires Keeps(EmitBranch(thn, c).ctx, end) && Holds(st, w, c.frames, c.consumed)
    ensures Post(ExecSeq(EmitBranch(thn, c).code, st), w, c, end)
    decreases |st.choices|, thn, 2
  {
    var t := EmitBranch(thn, c);
    BranchBalanced(thn, c, st, w, slots);
    KeepsSelf(c);
    PostKeeps(ExecSeq(t.code, st), w, c, c, t.ctx, end);
  }

  lemma {:induction false} ElseBalanced(els: Stmt, c: Ctx, c1: Ctx, st: State, w: World, slots: nat)
    requires Sound(c1) && GoodBranch(els, c1, slots) && slots == |Slots(w.cls)|
    requires Keeps(c, c1) && Holds(st, w, c1.frames, c1.consumed)
    ensures var e := EmitBranch(els, c1); Post(ExecSeq(e.code, st), w, c, e.ctx)
    decreases |st.choices|, els, 2
  {
    var e := EmitBranch(els, c1);
    BranchBalanced(els, c1, st, w, slots);
    BranchKeeps(els, c1, slots);
    KeepsSelf(e.ctx);
    PostKeeps(ExecSeq(e.code, st), w, c, c1, e.ctx, e.ctx);
  }

  /** One pass over a loop body: what it may leave behind. */
  ghost predicate LoopPost(r: Run, w: World, c: Ctx) {
    match r.exit
    case Normal => Holds(r.st, w, c.frames, c.consumed)
    case Broke => Holds(r.st, w, c.frames, c.consumed)
    case Continued => Holds(r.st, w, c.frames, c.consumed)
    case Returned(e, v) => Owns(r.st, w, Carried(e, v))
    case Cut => true
    case Faulted => false
  }

  lemma LoopEnds(r: Run, w: World, c: Ctx, c': Ctx)
    requires LoopPost(r, w, c) && !r.exit.Broke? && !r.exit.Continued?
    requires Keeps(PushLoop(c), c')
    ensures Post(r, w, c, PopLoop(c'))
  {
    if r.exit.Normal? {
      HoldsAgree(r.st, w, c.frames, c.consumed, c'.consumed);
    }
  }

  lemma {:induction false} PassBalanced(loop: Stmt, c: Ctx, st: State, w: World, slots: nat)
    requires Sound(c) && GoodBranch(loop, PushLoop(c), slots) && slots == |Slots(w.cls)|
    requires Holds(st, w, c.frames, c.consumed)
    ensures LoopPost(ExecSeq(EmitBranch(loop, PushLoop(c)).code, st), w, c)
    decreases |st.choices|, loop, 2
  {
    var c1 := PushLoop(c);
    var e := EmitBranch(loop, c1);
    BranchBalanced(loop, c1, st, w, slots);
    BranchKeeps(loop, c1, slots);
    var r := ExecSeq(e.code, st);
    assert c1.frames[..|c.frames|] == c.frames;
    if r.exit.Normal? {
      HoldsAgree(r.st, w, c.frames, e.ctx.consumed, c.consumed);
    }
  }

  lemma {:induction false} WhileBalanced(loop: Stmt, c: Ctx, st: State, w: World, slots: nat)
    requires Sound(c) && GoodBranch(loop, PushLoop(c), slots) && slots == |Slots(w.cls)|
    requires Holds(st, w, c.frames, c.consumed)
    ensures var r := Exec(CWhile(EmitLoop(loop, c).code), st);
      LoopPost(r, w, c) && !r.exit.Broke? && !r.exit.Continued?
    decreases |st.choices|, loop, 3
  {
    ConditionHolds(c, st, w);
    var a := Condition(st);
    if a.Answer? && a.c.taken {
      PassBalanced(loop, c, a.st, w, slots);
      var r1 := ExecSeq(EmitLoop(loop, c).code, a.st);
      if r1.exit.Normal? || r1.exit.Continued? {
        WhileBalanced(loop, c, r1.st, w, slots);
      }
    }
  }

  lemma {:induction false} DoBalanced(loop: Stmt, c: Ctx, st: State, w: World, slots: nat)
    requires Sound(c) && GoodBranch(loop, PushLoop(c), slots) && slots == |Slots(w.cls)|
    requires Holds(st, w, c.frames, c.consumed)
    ensures var r := Exec(CDo(EmitLoop(loop, c).code), st);
      LoopPost(r, w, c) && !r.exit.Broke? && !r.exit.Continued?
    decreases |st.choices|, loop, 3
  {
    var code := EmitLoop(loop, c).code;
    var r1 := ExecSeq(code, st);
    PassBalanced(loop, c, st, w, slots);
    DoPass(code, st);
    if r1.exit.Normal? || r1.exit.Continued? {
      ConditionHolds(c, r1.st, w);
      var a := Condition(r1.st);
      if a.Answer? && a.c.taken {
        DoBalanced(loop, c, a.st, w, slots);
      }
    }
  }

  /** What do { code } while (...) does after the first pass. */
  lemma DoPass(code: seq<Code>, st: State)
    ensures var r1 := ExecSeq(code, st); var r := Exec(CDo(code), st);
      if r1.exit.Broke? then r == Run(Normal, r1.st)
      else if !r1.exit.Normal? && !r1.exit.Continued? then r == r1
      else
        var a := Condition(r1.st);
        r == if a.NoAnswer? then Run(a.exit, r1.st)
             else if a.c.taken then Exec(CDo(code), a.st) else Run(Normal, a.st)
  {
  }

  lemma {:induction false} BranchBalanced(s: Stmt, c: Ctx, st: State, w: World, slots: nat)
    requires Sound(c) && GoodBranch(s, c, slots) && slots == |Slots(w.cls)|
    requires Holds(st, w, c.frames, c.consumed)
    ensures var e := EmitBranch(s, c); Post(ExecSeq(e.code, st), w, c, e.ctx)
    decreases |st.choices|, s, 1
  {
    if s.Block? {
      CompoundBalanced(s.body, c, st, w, slots, |c.frames|);
    } else {
      StmtBalanced(s, c, st, w, slots, |c.frames|);
    }
  }

  /** The statements of a scope followed by the releases of its frame. */
  lemma {:induction false} ScopeBalanced(body: seq<Stmt>, c: Ctx, st: State, w: World, slots: nat, d: nat)
    requires Sound(c) && Deep(c, d) && d < |c.frames| && GoodBody(body, c, slots, d) && slots == |Slots(w.cls)|
    requires Holds(st, w, c.frames, c.consumed)
    ensures var e := EmitScope(body, c); Post(ExecSeq(e.code, st), w, c, e.ctx)
    decreases |st.choices|, body, 1
  {
    var e := EmitBody(body, c);
    var tail := if EndsInReturn(body) then [] else ScopeReleases(e.ctx);
    BodyBalanced(body, c, st, w, slots, d);
    BodyExtends(body, c, slots, d);
    ExecAppend(e.code, tail, st);
    var r := ExecSeq(e.code, st);
    if r.exit.Normal? {
      LeaveFrame(e.ctx.frames, e.ctx.consumed, r.st, w);
    }
  }

  /** The first d frames hold everything outside the innermost loop. */
  predicate Deep(c: Ctx, d: nat) {
    d <= |c.frames| && (c.loops != [] ==> LoopDepth(c) <= d)
  }

  lemma PostLeaves(r: Run, w: World, c: Ctx, frame: seq<Name>, c': Ctx)
    requires Sound(c) && Post(r, w, Push(c, frame), c')
    ensures Post(r, w, c, c')
  {
    if r.exit.Broke? || r.exit.Continued? {
      var d := LoopDepth(c);
      assert Push(c, frame).frames[..d] == c.frames[..d];
    }
  }

  lemma {:induction false} CompoundBalanced(body: seq<Stmt>, c: Ctx, st: State, w: World, slots: nat, d: nat)
    requires Sound(c) && Deep(c, d) && GoodBody(body, Push(c, []), slots, d) && slots == |Slots(w.cls)|
    requires Holds(st, w, c.frames, c.consumed)
    ensures var e := EmitCompound(body, [], c); Post(ExecSeq(e.code, st), w, c, e.ctx)
    decreases |st.choices|, body, 2
  {
    var c1 := Push(c, []);
    var scope := EmitScope(body, c1);
    SoundPush(c, []);
    FlattenPush(c.frames, []);
    assert Flatten(c1.frames) == Flatten(c.frames);
    ScopeBalanced(body, c1, st, w, slots, d);
    assert RetainCode([]) + scope.code == scope.code;
    PostLeaves(ExecSeq(scope.code, st), w, c, [], scope.ctx);
  }

  /** Taking the lock brings the lock variable into scope. */
  ghost predicate LockPost(r: Run, st: State, w: World, c: Ctx) {
    || r.exit.Cut?
    || (r.exit.Normal? && Holds(r.st, w, SyncCtx(c).frames, c.consumed) && |r.st.choices| <= |st.choices|)
  }

  lemma {:induction false} SyncBalanced(body: seq<Stmt>, c: Ctx, locked: Run, st: State, w: World, slots: nat, d: nat)
    requires Sound(c) && Deep(c, d) && GoodBody(body, SyncCtx(c), slots, d) && slots == |Slots(w.cls)|
    requires LockPost(locked, st, w, c)
    ensures var e := EmitScope(body, SyncCtx(c)); Post(Then(locked, e.code), w, c, e.ctx)
    decreases |st.choices|, body, 3
  {
    if locked.exit.Normal? {
      LockedBalanced(body, c, locked.st, w, slots, d);
    }
  }

  lemma {:induction false} LockedBalanced(body: seq<Stmt>, c: Ctx, st: State, w: World, slots: nat, d: nat)
    requires Sound(c) && Deep(c, d) && GoodBody(body, SyncCtx(c), slots, d) && slots == |Slots(w.cls)|
    requires Holds(st, w, SyncCtx(c).frames, c.consumed)
    ensures var e := EmitScope(body, SyncCtx(c)); Post(ExecSeq(e.code, st), w, c, e.ctx)
    decreases |st.choices|, body, 2
  {
    var e := EmitScope(body, SyncCtx(c));
    SoundSync(c);
    ScopeBalanced(body, SyncCtx(c), st, w, slots, d);
    SyncLeaves(ExecSeq(e.code, st), w, c, e.ctx);
  }

  lemma SyncLeaves(r: Run, w: World, c: Ctx, c': Ctx)
    requires Sound(c) && Post(r, w, SyncCtx(c), c')
    ensures Post(r, w, c, c')
  {
    PostLeaves(r, w, c.(syncs := c.syncs + 1), [SyncVar(c.syncs + 1)], c');
  }

  lemma SyncRun(lock: Expr, body: seq<Stmt>, c: Ctx, st: State)
    ensures ExecSeq(EmitSync(lock, body, c).code, st) ==
            Then(Exec(CLock(SyncVar(c.syncs + 1), lock), st), EmitScope(body, SyncCtx(c)).code)
  {
    ExecOne(EmitSync(lock, body, c).code[0], st);
    ExecStep(CLock(SyncVar(c.syncs + 1), lock), EmitScope(body, SyncCtx(c)).code, st);
  }

  lemma LockHolds(lock: Expr, c: Ctx, st: State, w: World, slots: nat)
    requires Sound(c) && GoodLock(lock, c, slots) && slots == |Slots(w.cls)|
    requires Holds(st, w, c.frames, c.consumed)
    ensures LockPost(Exec(CLock(SyncVar(c.syncs + 1), lock), st), st, w, c)
  {
    var x, held := SyncVar(c.syncs + 1), Tokens(Flatten(c.frames), c.consumed, st.env);
    UsableIsReadable(lock, c, st, w, slots);
    TakeLock(x, lock, st, w, held);
    var r := Exec(CLock(x, lock), st);
    if r.exit.Normal? {
      FlattenPush(c.frames, [x]);
      SoundSync(c);
      HoldsNew(st.env, r.st, w, c.frames, SyncCtx(c).frames, c.consumed, x);
    }
  }

  lemma {:induction false} BodyBalanced(body: seq<Stmt>, c: Ctx, st: State, w: World, slots: nat, d: nat)
    requires Sound(c) && Deep(c, d) && d < |c.frames| && GoodBody(body, c, slots, d) && slots == |Slots(w.cls)|
    requires Holds(st, w, c.frames, c.consumed)
    ensures var e := EmitBody(body, c); var r := ExecSeq(e.code, st);
      Post(r, w, c, e.ctx) && (EndsInReturn(body) ==> !r.exit.Normal?)
    decreases |st.choices|, body, 0
  {
    if body != [] {
      var n := |body| - 1;
      var before := EmitBody(body[..n], c);
      var last := EmitStmt(body[n], before.ctx);
      BodyBalanced(body[..n], c, st, w, slots, d);
      BodyExtends(body[..n], c, slots, d);
      ExecAppend(before.code, last.code, st);
      var r := ExecSeq(before.code, st);
      if r.exit.Normal? {
        StmtBalanced(body[n], before.ctx, r.st, w, slots, d);
        PostExtends(ExecSeq(last.code, r.st), w, c, before.ctx, last.ctx, d);
      }
    }
  }

  lemma PostExtends(r: Run, w: World, c: Ctx, c1: Ctx, c2: Ctx, d: nat)
    requires Deep(c, d) && d < |c.frames| && Extends(c, c1, d) && Post(r, w, c1, c2)
    ensures Post(r, w, c, c2)
  {
    if r.exit.Broke? || r.exit.Continued? {
      OuterFrames(c.frames, c1.frames, LoopDepth(c), d);
      HoldsAgree(r.st, w, c.frames[..LoopDepth(c)], c1.consumed, c.consumed);
    }
  }

  /** Frames that differ in the last one only agree on everything outside it. */
  lemma OuterFrames(frames: seq<seq<Name>>, frames1: seq<seq<Name>>, depth: nat, d: nat)
    requires depth <= d < |frames| == |frames1| && frames1[..|frames| - 1] == frames[..|frames| - 1]
    ensures frames1[..depth] == frames[..depth]
    ensures forall x :: x in Flatten(frames[..depth]) ==> x in Flatten(frames[..d])
  {
    FirstFrames(frames, frames1, depth);
    assert frames[..d][..depth] == frames[..depth];
    FlattenPrefix(frames[..d], depth);
  }
}
