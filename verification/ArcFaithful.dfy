/**
 The emitted C does what the source says: apart from counting references, a run of the code
 emitted for any statement ends as the statement does, with the same value returned and the
 same variables and ivars.
 */
module ArcFaithful {
  import opened Wrappers
  import opened ObjectHeap
  import opened Cascade
  import opened ArcSyntax
  import opened ArcEmission
  import opened ArcMachine
  import opened ArcMeaning

  // ---------- when two states are the same ----------

  /** The heap without counts. */
  ghost predicate Shows(h: Heap, things: seq<Thing>) {
    |things| == |h| && forall i :: 0 <= i < |h| ==> things[i] == Thing(h[i].cls, h[i].fields)
  }

  /** The source's variables have the same values. */
  ghost predicate SameVars(env: map<Name, Ref>, env': map<Name, Ref>) {
    forall x: Name :: x.Local? ==> (x in env <==> x in env') && (x in env ==> env[x] == env'[x])
  }

  ghost predicate Same(st: State, sc: Scene) {
    Shows(st.heap, sc.things) && SameVars(st.env, sc.env) && sc.self == st.self && sc.choices == st.choices
  }

  /** No choice depends on which objects are alive. */
  predicate Tame(choices: seq<Choice>) {
    forall c :: c in choices ==> !c.Act? && !c.OwnShared? && (c.Lend? ==> c.r.Nil?)
  }

  /** A run that neither faults nor ends in a choice of something that is not there ends as
      the source does; with tame choices it is cut only where the source is. */
  ghost predicate Agrees(r: Run, m: Ended, tame: bool) {
    if r.exit.Faulted? then true
    else if r.exit.Cut? then tame ==> m.exit.Cut?
    else r.exit == m.exit && Same(r.st, m.sc) && (tame ==> Tame(r.st.choices))
  }

  // ---------- counting changes nothing that is seen ----------

  /** The run faults, or changes nothing but counts. */
  ghost predicate Counts(r: Run, st: State) {
    || r.exit.Faulted?
    || (r.exit.Normal? && r.st == st.(heap := r.st.heap) && |r.st.heap| == |st.heap|
        && forall i :: 0 <= i < |st.heap| ==>
             r.st.heap[i].cls == st.heap[i].cls && r.st.heap[i].fields == st.heap[i].fields)
  }

  lemma CountingCounts(c: Code, st: State)
    requires c.CRetain? || c.CRelease? || c.CReleaseIvar?
    ensures Counts(Exec(c, st), st)
  {
  }

  lemma CountsThen(a: seq<Code>, b: seq<Code>, st: State)
    requires Counts(ExecSeq(a, st), st)
    requires ExecSeq(a, st).exit.Normal? ==> Counts(ExecSeq(b, ExecSeq(a, st).st), ExecSeq(a, st).st)
    ensures Counts(ExecSeq(a + b, st), st)
  {
    ExecAppend(a, b, st);
  }

  /** Code that only counts, before other code. */
  lemma CountsFirst(a: seq<Code>, b: seq<Code>, st: State, sc: Scene, m: Ended, tame: bool)
    requires Counts(ExecSeq(a, st), st) && Same(st, sc)
    requires var r := ExecSeq(a, st); r.exit.Normal? && Same(r.st, sc) ==> Agrees(ExecSeq(b, r.st), m, tame)
    ensures Agrees(ExecSeq(a + b, st), m, tame)
  {
    ExecAppend(a, b, st);
  }

  /** Code that only counts, after other code. */
  lemma CountsLast(a: seq<Code>, b: seq<Code>, st: State, m: Ended, tame: bool)
    requires Agrees(ExecSeq(a, st), m, tame)
    requires var r := ExecSeq(a, st); r.exit.Normal? ==> Counts(ExecSeq(b, r.st), r.st)
    ensures Agrees(ExecSeq(a + b, st), m, tame)
  {
    ExecAppend(a, b, st);
  }

  lemma {:induction false} ReleasesCount(names: seq<Name>, consumed: set<Name>, st: State)
    ensures Counts(ExecSeq(ReleaseCode(names, consumed), st), st)
  {
    if names != [] {
      var n := |names| - 1;
      var last := if names[n] in consumed then [] else [CRelease(names[n])];
      ReleasesCount(names[..n], consumed, st);
      var st1 := ExecSeq(ReleaseCode(names[..n], consumed), st).st;
      if names[n] !in consumed {
        ExecOne(CRelease(names[n]), st1);
        CountingCounts(CRelease(names[n]), st1);
      }
      CountsThen(ReleaseCode(names[..n], consumed), last, st);
    }
  }

  lemma {:induction false} UnwindCounts(frames: seq<seq<Name>>, d: nat, consumed: set<Name>, st: State)
    ensures Counts(ExecSeq(UnwindCode(frames, d, consumed), st), st)
    decreases |frames|
  {
    if |frames| > d {
      var n := |frames| - 1;
      ReleasesCount(frames[n], consumed, st);
      UnwindCounts(frames[..n], d, consumed, ExecSeq(ReleaseCode(frames[n], consumed), st).st);
      CountsThen(ReleaseCode(frames[n], consumed), UnwindCode(frames[..n], d, consumed), st);
    }
  }

  lemma {:induction false} RetainsCount(names: seq<Name>, st: State)
    ensures Counts(ExecSeq(RetainCode(names), st), st)
  {
    if names != [] {
      var n := |names| - 1;
      RetainsCount(names[..n], st);
      assert RetainCode(names) == RetainCode(names[..n]) + [CRetain(names[n])];
      var st1 := ExecSeq(RetainCode(names[..n]), st).st;
      ExecOne(CRetain(names[n]), st1);
      CountingCounts(CRetain(names[n]), st1);
      CountsThen(RetainCode(names[..n]), [CRetain(names[n])], st);
    }
  }

  // ---------- calls and expressions ----------

  lemma DeedMeansSame(d: Deed, st: State, sc: Scene)
    requires Same(st, sc) && Perform(d, st).exit.Normal?
    ensures DeedMeans(d, sc).Some? && Same(Perform(d, st).st, DeedMeans(d, sc).value)
  {
  }

  /** The answers are the same, unless a deed is not possible. */
  lemma {:induction false} HearsSame(st: State, sc: Scene, tame: bool)
    requires Same(st, sc) && (tame ==> Tame(st.choices))
    ensures var a, b := Ask(st), Hear(sc);
      if a.NoAnswer? then a.exit.Faulted? || (tame ==> b.NoReply?)
      else b.Reply? && b.c == a.c && Same(a.st, b.sc) && (tame ==> Tame(a.st.choices) && a.c == st.choices[0])
    decreases |st.choices|
  {
    if st.choices != [] && st.choices[0].Act? {
      var st1, sc1 := st.(choices := st.choices[1..]), sc.(choices := sc.choices[1..]);
      assert !tame by {
        assert st.choices[0] in st.choices;
      }
      var r := Perform(st.choices[0].deed, st1);
      if r.exit.Normal? {
        DeedMeansSame(st.choices[0].deed, st1, sc1);
        HearsSame(r.st, DeedMeans(st.choices[0].deed, sc1).value, false);
      }
    }
  }

  lemma FreshSame(c: Choice, st: State, sc: Scene)
    requires Same(st, sc)
    ensures var r, m := EvalFresh(c, st), FreshMeans(c, sc);
      if r.NoVal? then r.exit.Faulted? || (!c.OwnShared? ==> m == NotMeant(Cut))
      else m.Meant? && m.v == r.v && Same(r.st, m.sc) && r.st.choices == st.choices && r.st.env == st.env
  {
  }

  lemma EvalSame(e: Expr, st: State, sc: Scene, tame: bool)
    requires Same(st, sc) && LocalExpr(e) && (tame ==> Tame(st.choices))
    ensures var r, m := Eval(e, st), ExprMeans(e, sc);
      if r.NoVal? then r.exit.Faulted? || (tame ==> m == NotMeant(Cut))
      else m.Meant? && m.v == r.v && Same(r.st, m.sc) && (tame ==> Tame(r.st.choices))
  {
    if e.Fresh? || e.Borrowed? {
      HearsSame(st, sc, tame);
      var a := Ask(st);
      if a.Answer? && e.Fresh? {
        FreshSame(a.c, a.st, Hear(sc).sc);
      }
      if tame && a.Answer? {
        assert a.c in st.choices;
      }
    }
  }

  // ---------- statements without parts ----------

  lemma BindSame(x: Name, e: Expr, st: State, sc: Scene, tame: bool)
    requires Same(st, sc) && x.Local? && LocalExpr(e) && (tame ==> Tame(st.choices))
    ensures Exec(CDeclare(x, e), st) == Exec(CAssign(x, e), st)
    ensures Agrees(Exec(CDeclare(x, e), st), BindMeans(x, e, sc), tame)
  {
    EvalSame(e, st, sc, tame);
  }

  lemma DeclFaithful(x: Name, init: Expr, c: Ctx, st: State, sc: Scene, tame: bool)
    requires Same(st, sc) && x.Local? && LocalExpr(init) && (tame ==> Tame(st.choices))
    ensures Agrees(ExecSeq(EmitDecl(x, init, c).code, st), BindMeans(x, init, sc), tame)
  {
    var tail := if IsBorrowed(init) then [CRetain(x)] else [];
    BindSame(x, init, st, sc, tame);
    ExecOne(CDeclare(x, init), st);
    var st1 := Exec(CDeclare(x, init), st).st;
    ExecOne(CRetain(x), st1);
    CountingCounts(CRetain(x), st1);
    CountsLast([CDeclare(x, init)], tail, st, BindMeans(x, init, sc), tame);
  }

  lemma AssignFaithful(x: Name, rhs: Expr, c: Ctx, st: State, sc: Scene, tame: bool)
    requires Same(st, sc) && x.Local? && LocalExpr(rhs) && (tame ==> Tame(st.choices))
    ensures Agrees(ExecSeq(EmitAssign(x, rhs, c).code, st), BindMeans(x, rhs, sc), tame)
  {
    var retain := if rhs.VarRef? && Tracked(c, rhs.x) then [CRetain(rhs.x)] else [];
    if Tracked(c, x) {
      assert EmitAssign(x, rhs, c).code == retain + [CRelease(x)] + [CAssign(x, rhs)];
      SwapCounts(x, rhs, retain, st);
      var r := ExecSeq(retain + [CRelease(x)], st);
      if r.exit.Normal? {
        BindSame(x, rhs, r.st, sc, tame);
        ExecOne(CAssign(x, rhs), r.st);
      }
      CountsFirst(retain + [CRelease(x)], [CAssign(x, rhs)], st, sc, BindMeans(x, rhs, sc), tame);
    } else {
      BindSame(x, rhs, st, sc, tame);
      ExecOne(CAssign(x, rhs), st);
    }
  }

  lemma SwapCounts(x: Name, rhs: Expr, retain: seq<Code>, st: State)
    requires retain == [] || (rhs.VarRef? && retain == [CRetain(rhs.x)])
    ensures Counts(ExecSeq(retain + [CRelease(x)], st), st)
  {
    if retain != [] {
      ExecOne(CRetain(rhs.x), st);
      CountingCounts(CRetain(rhs.x), st);
    }
    var st1 := ExecSeq(retain, st).st;
    ExecOne(CRelease(x), st1);
    CountingCounts(CRelease(x), st1);
    CountsThen(retain, [CRelease(x)], st);
  }

  /** self->f = x; after the old value has been released. */
  lemma SetSame(slot: nat, x: Name, st: State, sc: Scene, v: Ref, tame: bool)
    requires Same(st, sc) && (x in st.env ==> st.env[x] == v) && (tame ==> Tame(st.choices))
    ensures Agrees(ExecSeq([CReleaseIvar(slot)] + [CSetIvar(slot, x)], st), FieldSet(sc, slot, v), tame)
  {
    var m := FieldSet(sc, slot, v);
    ExecOne(CReleaseIvar(slot), st);
    CountingCounts(CReleaseIvar(slot), st);
    var r := ExecSeq([CReleaseIvar(slot)], st);
    ExecOne(CSetIvar(slot, x), r.st);
    CountsFirst([CReleaseIvar(slot)], [CSetIvar(slot, x)], st, sc, m, tame);
  }

  lemma StoreFaithful(slot: nat, rhs: Expr, c: Ctx, st: State, sc: Scene, tame: bool)
    requires Same(st, sc) && LocalExpr(rhs) && (tame ==> Tame(st.choices))
    ensures Agrees(ExecSeq(EmitStoreIvar(slot, rhs, c).code, st), StoreMeans(slot, rhs, sc), tame)
  {
    if rhs.VarRef? {
      StoreVarFaithful(slot, rhs.x, c, st, sc, tame);
    } else {
      StoreTempFaithful(slot, rhs, c, st, sc, tame);
    }
  }

  lemma StoreVarFaithful(slot: nat, x: Name, c: Ctx, st: State, sc: Scene, tame: bool)
    requires Same(st, sc) && x.Local? && (tame ==> Tame(st.choices))
    ensures Agrees(ExecSeq(EmitStoreIvar(slot, VarRef(x), c).code, st), StoreMeans(slot, VarRef(x), sc), tame)
  {
    var retain := if x in c.params then [CRetain(x)] else [];
    var store := [CReleaseIvar(slot)] + [CSetIvar(slot, x)];
    assert EmitStoreIvar(slot, VarRef(x), c).code == retain + store;
    if x in c.params {
      ExecOne(CRetain(x), st);
      CountingCounts(CRetain(x), st);
    }
    var r := ExecSeq(retain, st);
    if r.exit.Normal? && x in st.env {
      SetSame(slot, x, r.st, sc, st.env[x], tame);
    } else if r.exit.Normal? {
      UnknownFaults(slot, x, r.st);
    }
    CountsFirst(retain, store, st, sc, StoreMeans(slot, VarRef(x), sc), tame);
  }

  lemma UnknownFaults(slot: nat, x: Name, st: State)
    requires x !in st.env
    ensures ExecSeq([CReleaseIvar(slot)] + [CSetIvar(slot, x)], st).exit.Faulted?
  {
    CountingCounts(CReleaseIvar(slot), st);
    ExecStep(CReleaseIvar(slot), [CSetIvar(slot, x)], st);
    ExecOne(CSetIvar(slot, x), Exec(CReleaseIvar(slot), st).st);
  }

  lemma StoreTempFaithful(slot: nat, rhs: Expr, c: Ctx, st: State, sc: Scene, tame: bool)
    requires Same(st, sc) && LocalExpr(rhs) && !rhs.VarRef? && (tame ==> Tame(st.choices))
    ensures Agrees(ExecSeq(EmitStoreIvar(slot, rhs, c).code, st), StoreMeans(slot, rhs, sc), tame)
  {
    var tmp := Temp(c.temps);
    var store := [CReleaseIvar(slot)] + [CSetIvar(slot, tmp)];
    assert EmitStoreIvar(slot, rhs, c).code == [CDeclare(tmp, rhs)] + store;
    ExecStep(CDeclare(tmp, rhs), store, st);
    EvalSame(rhs, st, sc, tame);
    var r := Eval(rhs, st);
    if r.Val? {
      var m := ExprMeans(rhs, sc);
      SetSame(slot, tmp, r.st.(env := r.st.env[tmp := r.v]), m.sc, r.v, tame);
    }
  }

  lemma ReturnFaithful(e: Option<Expr>, c: Ctx, st: State, sc: Scene, tame: bool)
    requires Same(st, sc) && (e.Some? ==> LocalExpr(e.value)) && (tame ==> Tame(st.choices))
    ensures Agrees(ExecSeq(EmitReturn(e, c), st), ReturnMeans(e, sc), tame)
  {
    var releases := ReleaseCode(Flatten(c.frames), c.consumed + ReturnedVar(e));
    ReleasesCount(Flatten(c.frames), c.consumed + ReturnedVar(e), st);
    var r := ExecSeq(releases, st);
    if r.exit.Normal? {
      ExecOne(CReturn(e), r.st);
      if e.Some? {
        EvalSame(e.value, r.st, sc, tame);
      }
    }
    CountsFirst(releases, [CReturn(e)], st, sc, ReturnMeans(e, sc), tame);
  }

  lemma JumpFaithful(jump: Code, c: Ctx, st: State, sc: Scene, tame: bool)
    requires Same(st, sc) && (jump.CBreak? || jump.CContinue?) && (tame ==> Tame(st.choices))
    ensures Agrees(ExecSeq(LoopReleases(c) + [jump], st), Ended(if jump.CBreak? then Broke else Continued, sc), tame)
  {
    if c.loops != [] {
      UnwindCounts(c.frames, c.loops[|c.loops| - 1], c.consumed, st);
    }
    var r := ExecSeq(LoopReleases(c), st);
    if r.exit.Normal? {
      ExecOne(jump, r.st);
    }
    CountsFirst(LoopReleases(c), [jump], st, sc, Ended(if jump.CBreak? then Broke else Continued, sc), tame);
  }

  lemma OtherFaithful(st: State, sc: Scene, tame: bool)
    requires Same(st, sc) && (tame ==> Tame(st.choices))
    ensures Agrees(ExecSeq([COther], st), Mean(Other, sc), tame)
  {
    ExecOne(COther, st);
    HearsSame(st, sc, tame);
  }

  // ---------- statements with parts ----------

  /** Every statement, in whatever context it is emitted. */
  lemma {:induction false} StmtFaithful(s: Stmt, c: Ctx, st: State, sc: Scene, tame: bool)
    requires Same(st, sc) && LocalNames(s) && (tame ==> Tame(st.choices))
    ensures Agrees(ExecSeq(EmitStmt(s, c).code, st), Mean(s, sc), tame)
    decreases |st.choices|, s, 1
  {
    match s
    case Decl(x, init) => DeclFaithful(x, init, c, st, sc, tame);
    case Assign(x, rhs) => AssignFaithful(x, rhs, c, st, sc, tame);
    case StoreIvar(slot, rhs) => StoreFaithful(slot, rhs, c, st, sc, tame);
    case Block(body) =>
      CompoundFaithful(body, c, st, sc, tame);
      ExecOne(CBlock(EmitCompound(body, [], c).code), st);
    case Sync(lock, body) => SyncFaithful(lock, body, c, st, sc, tame);
    case If(thn, els) => IfFaithful(s, c, st, sc, tame);
    case While(loop) =>
      WhileFaithful(loop, c, st, sc, tame);
      ExecOne(CWhile(EmitLoop(loop, c).code), st);
    case DoWhile(loop) =>
      DoFaithful(loop, c, st, sc, tame);
      ExecOne(CDo(EmitLoop(loop, c).code), st);
    case Break => JumpFaithful(CBreak, c, st, sc, tame);
    case Continue => JumpFaithful(CContinue, c, st, sc, tame);
    case Return(e) => ReturnFaithful(e, c, st, sc, tame);
    case Other => OtherFaithful(st, sc, tame);
  }

  lemma {:induction false} BodyFaithful(body: seq<Stmt>, c: Ctx, st: State, sc: Scene, tame: bool)
    requires Same(st, sc) && AllLocal(body) && (tame ==> Tame(st.choices))
    ensures Agrees(ExecSeq(EmitBody(body, c).code, st), MeanAll(body, sc), tame)
    decreases |st.choices|, body, 1
  {
    if body != [] {
      var n := |body| - 1;
      var before := EmitBody(body[..n], c);
      var last := EmitStmt(body[n], before.ctx);
      BodyFaithful(body[..n], c, st, sc, tame);
      ExecAppend(before.code, last.code, st);
      var r := ExecSeq(before.code, st);
      if r.exit.Normal? {
        StmtFaithful(body[n], before.ctx, r.st, MeanAll(body[..n], sc).sc, tame);
      }
    }
  }

  lemma {:induction false} ScopeFaithful(body: seq<Stmt>, c: Ctx, st: State, sc: Scene, tame: bool)
    requires Same(st, sc) && AllLocal(body) && (tame ==> Tame(st.choices))
    ensures Agrees(ExecSeq(EmitScope(body, c).code, st), MeanAll(body, sc), tame)
    decreases |st.choices|, body, 2
  {
    var e := EmitBody(body, c);
    var tail := if EndsInReturn(body) then [] else ScopeReleases(e.ctx);
    BodyFaithful(body, c, st, sc, tame);
    var r := ExecSeq(e.code, st);
    if tail != [] {
      ReleasesCount(e.ctx.frames[|e.ctx.frames| - 1], e.ctx.consumed, r.st);
    }
    CountsLast(e.code, tail, st, MeanAll(body, sc), tame);
  }

  lemma {:induction false} CompoundFaithful(body: seq<Stmt>, c: Ctx, st: State, sc: Scene, tame: bool)
    requires Same(st, sc) && AllLocal(body) && (tame ==> Tame(st.choices))
    ensures Agrees(ExecSeq(EmitCompound(body, [], c).code, st), MeanAll(body, sc), tame)
    decreases |st.choices|, body, 3
  {
    ScopeFaithful(body, Push(c, []), st, sc, tame);
    assert RetainCode([]) + EmitScope(body, Push(c, [])).code == EmitScope(body, Push(c, [])).code;
  }

  lemma {:induction false} SyncFaithful(lock: Expr, body: seq<Stmt>, c: Ctx, st: State, sc: Scene, tame: bool)
    requires Same(st, sc) && LocalExpr(lock) && AllLocal(body) && (tame ==> Tame(st.choices))
    ensures Agrees(ExecSeq(EmitSync(lock, body, c).code, st), Mean(Sync(lock, body), sc), tame)
    decreases |st.choices|, body, 3
  {
    var x := SyncVar(c.syncs + 1);
    var scope := EmitScope(body, SyncCtx(c));
    ExecOne(CBlock([CLock(x, lock)] + scope.code), st);
    ExecStep(CLock(x, lock), scope.code, st);
    LockFaithful(x, lock, st, sc, tame);
    var r := Exec(CLock(x, lock), st);
    if r.exit.Normal? {
      ScopeFaithful(body, SyncCtx(c), r.st, Locked(lock, sc).sc, tame);
    }
  }

  /** The guarded object, and the lock that holds it. */
  function Locked(lock: Expr, sc: Scene): Ended {
    match ExprMeans(lock, sc)
    case NotMeant(exit) => Ended(exit, sc)
    case Meant(v, sc1) => Ended(Normal, sc1.(things := sc1.things + [Thing(SpinLock, [v])]))
  }

  lemma LockFaithful(x: Name, lock: Expr, st: State, sc: Scene, tame: bool)
    requires Same(st, sc) && x.SyncVar? && LocalExpr(lock) && (tame ==> Tame(st.choices))
    ensures Agrees(Exec(CLock(x, lock), st), Locked(lock, sc), tame)
  {
    EvalSame(lock, st, sc, tame);
    var r := Eval(lock, st);
    if r.Val? {
      LockSame(x, r.v, r.st, ExprMeans(lock, sc).sc);
    }
  }

  lemma LockSame(x: Name, v: Ref, st: State, sc: Scene)
    requires Same(st, sc) && x.SyncVar?
    ensures var r := Lock(x, v, st);
      || r.exit.Faulted?
      || (r.exit.Normal? && r.st.choices == st.choices
          && Same(r.st, sc.(things := sc.things + [Thing(SpinLock, [v])])))
  {
  }

  lemma {:induction false} BranchFaithful(s: Stmt, c: Ctx, st: State, sc: Scene, tame: bool)
    requires Same(st, sc) && LocalNames(s) && (tame ==> Tame(st.choices))
    ensures Agrees(ExecSeq(EmitBranch(s, c).code, st), Mean(s, sc), tame)
    decreases |st.choices|, s, 2
  {
    if s.Block? {
      CompoundFaithful(s.body, c, st, sc, tame);
    } else {
      StmtFaithful(s, c, st, sc, tame);
    }
  }

  /** The condition has the same value on both sides. */
  lemma DecidesSame(st: State, sc: Scene, tame: bool)
    requires Same(st, sc) && (tame ==> Tame(st.choices))
    ensures SameDecision(Condition(st), Decide(sc), tame)
  {
    HearsSame(st, sc, tame);
  }

  lemma {:induction false} IfFaithful(s: Stmt, c: Ctx, st: State, sc: Scene, tame: bool)
    requires Same(st, sc) && s.If? && LocalNames(s) && (tame ==> Tame(st.choices))
    ensures Agrees(ExecSeq(EmitStmt(s, c).code, st), Mean(s, sc), tame)
    decreases |st.choices|, s, 0
  {
    var t := EmitBranch(s.thn, c);
    var els := if s.els.Some? then EmitBranch(s.els.value, t.ctx).code else [];
    ExecOne(CIf(t.code, els), st);
    DecidesSame(st, sc, tame);
    var a, b := Condition(st), Decide(sc);
    if a.Answer? && a.c.taken {
      BranchFaithful(s.thn, c, a.st, b.sc, tame);
    } else if a.Answer? && s.els.Some? {
      BranchFaithful(s.els.value, t.ctx, a.st, b.sc, tame);
    }
    IfStep(t.code, els, s, st, sc, tame);
  }

  lemma IfStep(thn: seq<Code>, els: seq<Code>, s: Stmt, st: State, sc: Scene, tame: bool)
    requires s.If? && (s.els.None? ==> els == []) && SameDecision(Condition(st), Decide(sc), tame)
    requires var a, b := Condition(st), Decide(sc);
      && (a.Answer? && a.c.taken ==> Agrees(ExecSeq(thn, a.st), Mean(s.thn, b.sc), tame))
      && (a.Answer? && !a.c.taken && s.els.Some? ==> Agrees(ExecSeq(els, a.st), Mean(s.els.value, b.sc), tame))
    ensures Agrees(Exec(CIf(thn, els), st), Mean(s, sc), tame)
  {
    var a := Condition(st);
    if a.Answer? && !a.c.taken && s.els.None? {
      assert ExecSeq(els, a.st) == Run(Normal, a.st);
    }
    IfMeans(s, sc);
  }

  lemma IfMeans(s: Stmt, sc: Scene)
    requires s.If?
    ensures var b := Decide(sc);
      Mean(s, sc) ==
      if b.NoReply? then Ended(Cut, sc)
      else if b.c.taken then Mean(s.thn, b.sc)
      else if s.els.Some? then Mean(s.els.value, b.sc)
      else Ended(Normal, b.sc)
  {
  }

  /** Both sides of the condition of a loop or branch. */
  ghost predicate SameDecision(a: Answer, b: Reply, tame: bool) {
    if a.NoAnswer? then a.exit.Faulted? || (a.exit.Cut? && (tame ==> b.NoReply?))
    else b.Reply? && b.c == a.c && Same(a.st, b.sc) && (tame ==> Tame(a.st.choices))
  }

  lemma {:induction false} WhileFaithful(loop: Stmt, c: Ctx, st: State, sc: Scene, tame: bool)
    requires Same(st, sc) && LocalNames(loop) && (tame ==> Tame(st.choices))
    ensures Agrees(Exec(CWhile(EmitLoop(loop, c).code), st), Mean(While(loop), sc), tame)
    decreases |st.choices|, loop, 3
  {
    var code := EmitLoop(loop, c).code;
    var a, b := Condition(st), Decide(sc);
    DecidesSame(st, sc, tame);
    if a.Answer? && a.c.taken {
      BranchFaithful(loop, PushLoop(c), a.st, b.sc, tame);
      var r, m := ExecSeq(code, a.st), Mean(loop, b.sc);
      if r.exit.Normal? || r.exit.Continued? {
        WhileFaithful(loop, c, r.st, m.sc, tame);
      }
    }
    WhileStep(code, loop, st, sc, tame);
  }

  lemma WhileStep(code: seq<Code>, loop: Stmt, st: State, sc: Scene, tame: bool)
    requires SameDecision(Condition(st), Decide(sc), tame)
    requires var a, b := Condition(st), Decide(sc);
      a.Answer? && a.c.taken ==>
        var r, m := ExecSeq(code, a.st), Mean(loop, b.sc);
        && Agrees(r, m, tame)
        && (r.exit.Normal? || r.exit.Continued? ==> Agrees(Exec(CWhile(code), r.st), Mean(While(loop), m.sc), tame))
    ensures Agrees(Exec(CWhile(code), st), Mean(While(loop), sc), tame)
  {
  }

  lemma {:induction false} DoFaithful(loop: Stmt, c: Ctx, st: State, sc: Scene, tame: bool)
    requires Same(st, sc) && LocalNames(loop) && (tame ==> Tame(st.choices))
    ensures Agrees(Exec(CDo(EmitLoop(loop, c).code), st), Mean(DoWhile(loop), sc), tame)
    decreases |st.choices|, loop, 3
  {
    var code := EmitLoop(loop, c).code;
    BranchFaithful(loop, PushLoop(c), st, sc, tame);
    var r, m := ExecSeq(code, st), Mean(loop, sc);
    if r.exit.Normal? || r.exit.Continued? {
      DecidesSame(r.st, m.sc, tame);
      var a := Condition(r.st);
      if a.Answer? && a.c.taken {
        DoFaithful(loop, c, a.st, Decide(m.sc).sc, tame);
      }
    }
    DoStep(code, loop, st, sc, tame);
  }

  lemma DoStep(code: seq<Code>, loop: Stmt, st: State, sc: Scene, tame: bool)
    requires Agrees(ExecSeq(code, st), Mean(loop, sc), tame)
    requires var r, m := ExecSeq(code, st), Mean(loop, sc);
      r.exit.Normal? || r.exit.Continued? ==>
        var a, b := Condition(r.st), Decide(m.sc);
        && SameDecision(a, b, tame)
        && (a.Answer? && a.c.taken ==> Agrees(Exec(CDo(code), a.st), Mean(DoWhile(loop), b.sc), tame))
    ensures Agrees(Exec(CDo(code), st), Mean(DoWhile(loop), sc), tame)
  {
    DoMeans(loop, sc);
    DoRuns(code, st);
  }

  lemma DoMeans(loop: Stmt, sc: Scene)
    ensures var m := Mean(loop, sc); var b := Decide(m.sc);
      Mean(DoWhile(loop), sc) ==
      if m.exit.Broke? then Ended(Normal, m.sc)
      else if !m.exit.Normal? && !m.exit.Continued? then m
      else if b.NoReply? then Ended(Cut, m.sc)
      else if !b.c.taken then Ended(Normal, b.sc)
      else Mean(DoWhile(loop), b.sc)
  {
  }

  lemma DoRuns(code: seq<Code>, st: State)
    ensures var r := ExecSeq(code, st); var a := Condition(r.st);
      Exec(CDo(code), st) ==
      if r.exit.Broke? then Run(Normal, r.st)
      else if !r.exit.Normal? && !r.exit.Continued? then r
      else if a.NoAnswer? then Run(a.exit, r.st)
      else if !a.c.taken then Run(Normal, a.st)
      else Exec(CDo(code), a.st)
  {
  }

  // ---------- methods ----------

  /** The objects and variables of a state, without counts. */
  ghost function SceneOf(st: State): Scene {
    Scene(seq(|st.heap|, i requires 0 <= i < |st.heap| => Thing(st.heap[i].cls, st.heap[i].fields)), st.env, st.self,
          st.choices)
  }

  /** Every body of source statements, in the fragment or not. */
  lemma MethodFaithful(params: seq<Name>, body: seq<Stmt>, st: State)
    requires AllLocal(body)
    ensures Agrees(ExecSeq(EmitMethod(params, body), st), MeanAll(body, SceneOf(st)), Tame(st.choices))
  {
    var c := Push(EntryCtx(params), params);
    var scope := EmitScope(body, c);
    RetainsCount(params, st);
    var r := ExecSeq(RetainCode(params), st);
    if r.exit.Normal? {
      ScopeFaithful(body, c, r.st, SceneOf(st), Tame(st.choices));
    }
    CountsFirst(RetainCode(params), scope.code, st, SceneOf(st), MeanAll(body, SceneOf(st)), Tame(st.choices));
  }
}
