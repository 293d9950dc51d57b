/**
 Where the emitted retains and releases stop balancing: a variable or an ivar that takes a
 value without a reference of its own, which the emitter neither retains nor recognises,
 and a reference that comes with a value and that the emitter never gives up.
 */
module ArcBoundary {
  import opened Wrappers
  import opened ObjectHeap
  import opened Cascade
  import opened ArcSyntax
  import opened ArcEmission
  import opened ArcFragment
  import opened ArcMachine
  import opened ArcTokens
  import opened ArcBalance

  /** Values that are only borrowed when assigned to a variable. */
  predicate Unowned(e: Expr, slots: nat) {
    e.Borrowed? || e.SelfRef? || (e.IvarRef? && e.slot < slots)
  }

  predicate Uncounted(h: Heap, v: Ref) {
    v.Nil? || (v.id < |h| && h[v.id].immortal)
  }

  /** One reference more than there is keeps the equation only for nil and immortal objects. */
  lemma ExtraReference(h: Heap, held: multiset<Ref>, hole: Hole, v: Ref)
    requires CountedWithHole(h, held, hole)
    ensures CountedWithHole(h, held + multiset{v}, hole) <==> Uncounted(h, v)
  {
    var held' := held + multiset{v};
    if Uncounted(h, v) {
      forall i: nat ensures CountedAt(h, held', hole, i) {
        assert CountedAt(h, held, hole, i);
        assert held'[Obj(i)] == held[Obj(i)] + if v == Obj(i) then 1 else 0;
      }
    } else {
      assert CountedAt(h, held, hole, v.id);
      assert held'[v] == held[v] + 1;
      assert !CountedAt(h, held', hole, v.id);
    }
  }

  /** So does one reference less. */
  lemma MissingReference(h: Heap, held: multiset<Ref>, v: Ref)
    requires Counted(h, held + multiset{v})
    ensures Counted(h, held) <==> Uncounted(h, v)
  {
    if Counted(h, held) {
      ExtraReference(h, held, NoHole, v);
    } else if Uncounted(h, v) {
      forall i: nat ensures CountedAt(h, held, NoHole, i) {
        assert CountedAt(h, held + multiset{v}, NoHole, i);
        assert (held + multiset{v})[Obj(i)] == held[Obj(i)] + if v == Obj(i) then 1 else 0;
      }
    }
  }

  /** The tracked variables after x has taken a value that brings no reference. */
  lemma HoldsExact(env: map<Name, Ref>, st: State, w: World, frames: seq<seq<Name>>, consumed: set<Name>, x: Name)
    requires Distinct(Flatten(frames)) && x in Flatten(frames) && x !in consumed
    requires forall y :: y in Flatten(frames) && y !in consumed ==> y in env
    requires x in st.env && st.env == env[x := st.env[x]] && Live(st.heap, st.env[x])
    requires Owns(st, w, Tokens(Flatten(frames), consumed, env) - multiset{Get(env, x)})
    ensures Holds(st, w, frames, consumed) <==> Uncounted(st.heap, st.env[x])
  {
    var rest := Tokens(Flatten(frames), consumed, env) - multiset{Get(env, x)};
    TokensSet(Flatten(frames), consumed, env, x, st.env[x]);
    assert st.out + (rest + multiset{st.env[x]}) == st.out + rest + multiset{st.env[x]};
    ExtraReference(st.heap, st.out + rest, NoHole, st.env[x]);
  }

  // ---------- the value, told before the statement ----------

  /** What the next call or condition comes to. */
  function NextAnswer(choices: seq<Choice>): Choice {
    if choices == [] then Done
    else if choices[0].Act? then NextAnswer(choices[1..])
    else choices[0]
  }

  /** The value of e will be nil or an immortal object. */
  predicate WillBeUncounted(e: Expr, st: State) {
    match e
    case NilExpr => true
    case SelfRef => Uncounted(st.heap, Obj(st.self))
    case VarRef(x) => x in st.env && Uncounted(st.heap, st.env[x])
    case IvarRef(slot) =>
      && st.self < |st.heap| && slot < |st.heap[st.self].fields|
      && Uncounted(st.heap, st.heap[st.self].fields[slot])
    case Borrowed => NextAnswer(st.choices).Lend? && Uncounted(st.heap, NextAnswer(st.choices).r)
    case Fresh =>
      match NextAnswer(st.choices)
      case OwnNil => true
      case OwnShared(id) => Uncounted(st.heap, Obj(id))
      case _ => false
  }

  /** Immortal objects stay immortal, and no others become so. */
  ghost predicate SameImmortals(h: Heap, h': Heap) {
    |h| <= |h'| && forall i :: 0 <= i < |h'| ==> (h'[i].immortal <==> i < |h| && h[i].immortal)
  }

  lemma PerformImmortals(d: Deed, st: State)
    ensures var r := Perform(d, st); r.exit.Normal? ==> SameImmortals(st.heap, r.st.heap)
  {
  }

  lemma {:induction false} AskAnswers(st: State)
    ensures var a := Ask(st);
      a.Answer? ==> a.c == NextAnswer(st.choices) && SameImmortals(st.heap, a.st.heap)
    decreases |st.choices|
  {
    if st.choices != [] && st.choices[0].Act? {
      var r := Perform(st.choices[0].deed, st.(choices := st.choices[1..]));
      if r.exit.Normal? {
        PerformImmortals(st.choices[0].deed, st.(choices := st.choices[1..]));
        AskAnswers(r.st);
      }
    }
  }

  lemma ValueTold(e: Expr, st: State)
    requires st.self < |st.heap|
    ensures var r := Eval(e, st);
      r.Val? ==> SameImmortals(st.heap, r.st.heap) && (Uncounted(r.st.heap, r.v) <==> WillBeUncounted(e, st))
  {
    if e.Fresh? || e.Borrowed? {
      CallTold(e, st);
    }
  }

  lemma CallTold(e: Expr, st: State)
    requires e.Fresh? || e.Borrowed?
    ensures var r := Eval(e, st);
      r.Val? ==> SameImmortals(st.heap, r.st.heap) && (Uncounted(r.st.heap, r.v) <==> WillBeUncounted(e, st))
  {
    AskAnswers(st);
    var a := Ask(st);
    if e.Fresh? && a.Answer? {
      FreshTold(a.c, a.st);
      SameUncounted(st.heap, a.st.heap);
    }
  }

  lemma SameUncounted(h: Heap, h': Heap)
    requires SameImmortals(h, h')
    ensures forall v :: Uncounted(h', v) <==> Uncounted(h, v)
  {
  }

  lemma FreshTold(c: Choice, st: State)
    ensures var r := EvalFresh(c, st);
      r.Val? ==> SameImmortals(st.heap, r.st.heap) &&
                 (Uncounted(r.st.heap, r.v) <==> c.OwnNil? || (c.OwnShared? && Uncounted(st.heap, Obj(c.id))))
  {
  }

  /** A release beforehand does not change what can be told. */
  lemma ToldBeforeRelease(e: Expr, st: State, h: Heap)
    requires Evolves(st.heap, h)
    ensures WillBeUncounted(e, st.(heap := h)) <==> WillBeUncounted(e, st)
  {
  }

  // ---------- assignment ----------

  /** x = e; for a borrowed call, self or an ivar: the old value is released, the new one is
      not retained, and the counts stay right if and only if the new one, which can be
      told beforehand, is nil or immortal. */
  lemma AssignUnownedExact(x: Name, rhs: Expr, c: Ctx, st: State, w: World)
    requires Sound(c) && Usable(c, x) && Unowned(rhs, |Slots(w.cls)|) && Holds(st, w, c.frames, c.consumed)
    ensures var e := EmitAssign(x, rhs, c); var r := ExecSeq(e.code, st);
      || r.exit.Cut?
      || (r.exit.Normal? && (Holds(r.st, w, e.ctx.frames, e.ctx.consumed) <==> WillBeUncounted(rhs, st)))
  {
    var held := Tokens(Flatten(c.frames), c.consumed, st.env);
    assert c.consumed - {x} == c.consumed;
    assert EmitAssign(x, rhs, c).code == [CRelease(x), CAssign(x, rhs)];
    TokensTake(Flatten(c.frames), c.consumed, st.env, x);
    ReleaseOwns(st.env[x], st, w, held);
    var st1 := st.(heap := Release(st.heap, st.env[x]).heap);
    ExecStep(CRelease(x), [CAssign(x, rhs)], st);
    ExecOne(CAssign(x, rhs), st1);
    AssignTakes(x, rhs, st1, w, held - multiset{st.env[x]});
    ToldBeforeRelease(rhs, st, st1.heap);
    var r := Exec(CAssign(x, rhs), st1);
    if r.exit.Normal? {
      HoldsExact(st.env, r.st, w, c.frames, c.consumed, x);
    }
  }

  /** The assignment itself hands over nothing. */
  lemma AssignTakes(x: Name, rhs: Expr, st: State, w: World, held: multiset<Ref>)
    requires Unowned(rhs, |Slots(w.cls)|) && Owns(st, w, held)
    ensures Exec(CDeclare(x, rhs), st) == Exec(CAssign(x, rhs), st)
    ensures var r := Exec(CAssign(x, rhs), st);
      || r.exit.Cut?
      || (&& r.exit.Normal? && x in r.st.env && r.st.env == st.env[x := r.st.env[x]]
          && Owns(r.st, w, held) && Live(r.st.heap, r.st.env[x])
          && (Uncounted(r.st.heap, r.st.env[x]) <==> WillBeUncounted(rhs, st)))
  {
    BindVar(x, rhs, st, w, held);
    ValueTold(rhs, st);
    var r := Exec(CAssign(x, rhs), st);
    if r.exit.Normal? {
      NothingGiven(rhs, r.st.env[x], r.st, w, held);
    }
  }

  // ---------- declaration ----------

  /** T x = ivar; the declared variable is released at the end of its scope but was never
      retained: right if and only if the ivar holds nil or an immortal object. */
  lemma DeclIvarExact(x: Name, slot: nat, c: Ctx, st: State, w: World)
    requires Sound(c) && x.Local? && !Tracked(c, x) && x !in c.consumed && slot < |Slots(w.cls)|
    requires Holds(st, w, c.frames, c.consumed)
    ensures var e := EmitDecl(x, IvarRef(slot), c); var r := ExecSeq(e.code, st);
      && r.exit.Normal?
      && (Holds(r.st, w, e.ctx.frames, e.ctx.consumed) <==> WillBeUncounted(IvarRef(slot), st))
  {
    DeclExtends(x, IvarRef(slot), c);
    BindVar(x, IvarRef(slot), st, w, Tokens(Flatten(c.frames), c.consumed, st.env));
    AssignTakes(x, IvarRef(slot), st, w, Tokens(Flatten(c.frames), c.consumed, st.env));
    assert EmitDecl(x, IvarRef(slot), c).code == [CDeclare(x, IvarRef(slot))];
    ExecOne(CDeclare(x, IvarRef(slot)), st);
    HoldsNewExact(st.env, Exec(CDeclare(x, IvarRef(slot)), st).st, w, c.frames, Track(c, x).frames, c.consumed, x);
  }

  /** The tracked variables after x has entered the scope with a value that brings no
      reference. */
  lemma HoldsNewExact(env: map<Name, Ref>, st: State, w: World, frames: seq<seq<Name>>, frames': seq<seq<Name>>,
                      consumed: set<Name>, x: Name)
    requires Flatten(frames') == Flatten(frames) + [x] && x !in consumed && x !in Flatten(frames)
    requires x in st.env && st.env == env[x := st.env[x]] && Live(st.heap, st.env[x])
    requires forall y :: y in Flatten(frames) && y !in consumed ==> y in env
    requires Owns(st, w, Tokens(Flatten(frames), consumed, env))
    ensures Holds(st, w, frames', consumed) <==> Uncounted(st.heap, st.env[x])
  {
    var names := Flatten(frames);
    var held := Tokens(names, consumed, env);
    TokensAgree(names, consumed, env, consumed, st.env);
    assert (names + [x])[..|names|] == names;
    assert st.out + (held + multiset{st.env[x]}) == st.out + held + multiset{st.env[x]};
    ExtraReference(st.heap, st.out + held, NoHole, st.env[x]);
  }

  // ---------- references that are never given up ----------

  /** The tracked variables after x has entered the scope, when a reference to v is left
      over besides x's own. */
  lemma SurplusExact(env: map<Name, Ref>, st: State, w: World, frames: seq<seq<Name>>, frames': seq<seq<Name>>,
                     consumed: set<Name>, x: Name, v: Ref)
    requires Flatten(frames') == Flatten(frames) + [x]
    requires forall y :: y in Flatten(frames') && y !in consumed ==> y in st.env
    requires forall y :: y in Flatten(frames) && y !in consumed ==> y in env && y in st.env && st.env[y] == env[y]
    requires var own := if x in consumed then multiset{} else multiset{Get(st.env, x)};
      Owns(st, w, Tokens(Flatten(frames), consumed, env) + own + multiset{v})
    ensures Holds(st, w, frames', consumed) <==> Uncounted(st.heap, v)
  {
    var names := Flatten(frames);
    var own := if x in consumed then multiset{} else multiset{Get(st.env, x)};
    var held := Tokens(names, consumed, env) + own;
    TokensAgree(names, consumed, env, consumed, st.env);
    assert (names + [x])[..|names|] == names;
    assert Tokens(Flatten(frames'), consumed, st.env) == held;
    assert st.out + (held + multiset{v}) == st.out + held + multiset{v};
    MissingReference(st.heap, st.out + held, v);
  }

  /** @synchronized on an owning call: the lock retains the object, and nothing gives up the
      reference that the call returned.  Right if and only if it returns nil or an immortal
      object. */
  lemma LockFreshExact(c: Ctx, st: State, w: World)
    requires Sound(c) && Holds(st, w, c.frames, c.consumed)
    ensures var r := Exec(CLock(SyncVar(c.syncs + 1), Fresh), st);
      || r.exit.Cut?
      || (r.exit.Normal? && (Holds(r.st, w, SyncCtx(c).frames, c.consumed) <==> WillBeUncounted(Fresh, st)))
  {
    var x, held := SyncVar(c.syncs + 1), Tokens(Flatten(c.frames), c.consumed, st.env);
    var v := LockTakes(x, st, w, held);
    var r := Exec(CLock(x, Fresh), st);
    if r.exit.Normal? {
      LockSurplus(c, st.env, r.st, w, v);
    }
  }

  lemma LockSurplus(c: Ctx, env: map<Name, Ref>, st: State, w: World, v: Ref)
    requires Sound(c) && (forall y :: y in Flatten(c.frames) && y !in c.consumed ==> y in env)
    requires var x := SyncVar(c.syncs + 1);
      && st.env.Keys == env.Keys + {x} && (forall y :: y in env && y != x ==> st.env[y] == env[y])
      && Owns(st, w, Tokens(Flatten(c.frames), c.consumed, env) + multiset{st.env[x]} + multiset{v})
    ensures Holds(st, w, SyncCtx(c).frames, c.consumed) <==> Uncounted(st.heap, v)
  {
    LockVariable(c);
    SurplusExact(env, st, w, c.frames, SyncCtx(c).frames, c.consumed, SyncVar(c.syncs + 1), v);
  }

  lemma LockVariable(c: Ctx)
    requires Sound(c)
    ensures Flatten(SyncCtx(c).frames) == Flatten(c.frames) + [SyncVar(c.syncs + 1)]
    ensures SyncVar(c.syncs + 1) !in Flatten(c.frames) && SyncVar(c.syncs + 1) !in c.consumed
  {
    FlattenPush(c.frames, [SyncVar(c.syncs + 1)]);
    SoundSync(c);
  }

  /** Both the lock and the reference that the call returned are there afterwards. */
  lemma LockTakes(x: Name, st: State, w: World, held: multiset<Ref>) returns (v: Ref)
    requires Owns(st, w, held)
    ensures var r := Exec(CLock(x, Fresh), st);
      || r.exit.Cut?
      || (&& r.exit.Normal? && r.st.env.Keys == st.env.Keys + {x}
          && (forall y :: y in st.env && y != x ==> r.st.env[y] == st.env[y])
          && Owns(r.st, w, held + multiset{r.st.env[x]} + multiset{v})
          && (Uncounted(r.st.heap, v) <==> WillBeUncounted(Fresh, st)))
  {
    EvalOwns(Fresh, st, w, held);
    ValueTold(Fresh, st);
    var e := Eval(Fresh, st);
    v := if e.Val? then e.v else Nil;
    if e.Val? {
      LockOwns(x, v, e.st, w, held + multiset{v});
      LockImmortals(x, v, e.st);
      var own := multiset{Lock(x, v, e.st).st.env[x]};
      assert held + multiset{v} + own == held + own + multiset{v};
    }
  }

  lemma LockImmortals(x: Name, v: Ref, st: State)
    ensures var r := Lock(x, v, st); r.exit.Normal? ==> SameImmortals(st.heap, r.st.heap)
  {
  }

  /** Declaring again, in a later scope, a name whose reference was moved away: it is not
      released at the end of its scope.  Right if and only if it is given nil or an immortal
      object. */
  lemma DeclMovedExact(x: Name, init: Expr, c: Ctx, st: State, w: World, slots: nat)
    requires Sound(c) && x.Local? && !Tracked(c, x) && x in c.consumed && GoodInit(init, c)
    requires Holds(st, w, c.frames, c.consumed)
    ensures var e := EmitDecl(x, init, c); var r := ExecSeq(e.code, st);
      || r.exit.Cut?
      || (r.exit.Normal? && (Holds(r.st, w, e.ctx.frames, e.ctx.consumed) <==> WillBeUncounted(init, st)))
  {
    var held := Tokens(Flatten(c.frames), c.consumed, st.env);
    DeclExtends(x, init, c);
    UsableIsReadable(init, c, st, w, slots);
    DeclTakes(x, init, c, st, w, held);
    DeclTold(x, init, c, st);
    var r := ExecSeq(EmitDecl(x, init, c).code, st);
    if r.exit.Normal? {
      assert held + multiset{} == held;
      SurplusExact(st.env, r.st, w, c.frames, Track(c, x).frames, c.consumed, x, r.st.env[x]);
    }
  }

  lemma DeclTold(x: Name, init: Expr, c: Ctx, st: State)
    requires st.self < |st.heap|
    ensures var r := ExecSeq(EmitDecl(x, init, c).code, st);
      r.exit.Normal? ==> x in r.st.env && (Uncounted(r.st.heap, r.st.env[x]) <==> WillBeUncounted(init, st))
  {
    BindTold(x, init, st);
    DeclRun(x, init, c, st);
    var r := Exec(CDeclare(x, init), st);
    RetainImmortals(x, r.st);
    SameUncounted(r.st.heap, Exec(CRetain(x), r.st).st.heap);
  }

  lemma BindTold(x: Name, e: Expr, st: State)
    requires st.self < |st.heap|
    ensures var r := Exec(CDeclare(x, e), st);
      r.exit.Normal? ==> x in r.st.env && (Uncounted(r.st.heap, r.st.env[x]) <==> WillBeUncounted(e, st))
  {
    ValueTold(e, st);
  }

  lemma DeclRun(x: Name, init: Expr, c: Ctx, st: State)
    ensures var r := Exec(CDeclare(x, init), st);
      ExecSeq(EmitDecl(x, init, c).code, st) ==
      if r.exit.Normal? && IsBorrowed(init) then Exec(CRetain(x), r.st) else r
  {
    if IsBorrowed(init) {
      ExecStep(CDeclare(x, init), [CRetain(x)], st);
      ExecOne(CRetain(x), Exec(CDeclare(x, init), st).st);
    } else {
      ExecOne(CDeclare(x, init), st);
    }
  }

  lemma RetainImmortals(x: Name, st: State)
    ensures var r := Exec(CRetain(x), st); SameImmortals(st.heap, r.st.heap) && r.st.env == st.env
  {
  }

  // ---------- ivars ----------

  /** The statements release(self->f); self->f = v; with v not owned. */
  lemma StoreExtraCounts(h: Heap, held: multiset<Ref>, self: nat, slot: nat, v: Ref)
    requires Counted(h, held) && Obj(self) in held && self < |h| && slot < |h[self].fields|
    ensures var res := Release(h, h[self].fields[slot]);
      && res.Ok? && ActiveAt(res.heap, self) && slot < |res.heap[self].fields| && AllPositive(res.heap)
      && (Counted(SetField(res.heap, self, slot, v), held) <==> Uncounted(h, v))
  {
    var was := h[self].fields[slot];
    var hole := Hole(self, slot);
    assert CountedAt(h, held, NoHole, self);
    OpenHole(h, held, hole);
    assert held + multiset{was} - multiset{was} == held;
    assert Supported(h, {self}, held, hole) by {
      assert SupportedAt(h, self, {self}, held, hole);
    }
    ReleaseCascade(h, held + multiset{was}, was, {self}, hole);
    assert self in {self};
    FillExact(Release(h, was).heap, held, hole, v);
    CountsPositive(Release(h, was).heap, held, hole);
  }

  /** No object is active without a count. */
  ghost predicate AllPositive(h: Heap) {
    forall i :: 0 <= i < |h| && h[i].status.Active? && !h[i].immortal ==> h[i].rc > 0
  }

  lemma CountsPositive(h: Heap, held: multiset<Ref>, hole: Hole)
    requires CountedWithHole(h, held, hole)
    ensures AllPositive(h)
  {
    forall i: nat | i < |h| && h[i].status.Active? && !h[i].immortal ensures h[i].rc > 0 {
      assert CountedAt(h, held, hole, i);
    }
  }

  lemma FillExact(h: Heap, held: multiset<Ref>, hole: Hole, v: Ref)
    requires hole.Hole? && CountedWithHole(h, held, hole)
    requires ActiveAt(h, hole.id) && hole.slot < |h[hole.id].fields|
    ensures Counted(SetField(h, hole.id, hole.slot, v), held) <==> Uncounted(h, v)
  {
    var h' := SetField(h, hole.id, hole.slot, v);
    ExtraReference(h, held, hole, v);
    if Uncounted(h, v) {
      FillHole(h, held, hole, v);
    } else {
      FilledRefs(h, h', hole, v, v);
      assert CountedAt(h, held, hole, v.id);
      assert !CountedAt(h', held, NoHole, v.id);
    }
  }

  /** self->f = e; for a borrowed call, self or an ivar: right if and only if the new value
      is nil or immortal. */
  lemma StoreUnownedExact(slot: nat, rhs: Expr, c: Ctx, st: State, w: World)
    requires Sound(c) && slot < |Slots(w.cls)| && Unowned(rhs, |Slots(w.cls)|) && Holds(st, w, c.frames, c.consumed)
    ensures var e := EmitStoreIvar(slot, rhs, c); var r := ExecSeq(e.code, st);
      || r.exit.Cut?
      || (r.exit.Normal? && (Holds(r.st, w, e.ctx.frames, e.ctx.consumed) <==> WillBeUncounted(rhs, st)))
  {
    var tmp, held := Temp(c.temps), Tokens(Flatten(c.frames), c.consumed, st.env);
    var store := [CReleaseIvar(slot), CSetIvar(slot, tmp)];
    assert EmitStoreIvar(slot, rhs, c).code == [CDeclare(tmp, rhs)] + store;
    ExecStep(CDeclare(tmp, rhs), store, st);
    AssignTakes(tmp, rhs, st, w, held);
    var r := Exec(CDeclare(tmp, rhs), st);
    if r.exit.Normal? {
      TokensAgree(Flatten(c.frames), c.consumed, st.env, c.consumed, r.st.env);
      StoreExtra(slot, tmp, r.st, w, c);
    }
  }

  lemma StoreExtra(slot: nat, tmp: Name, st: State, w: World, c: Ctx)
    requires tmp in st.env && slot < |Slots(w.cls)| && Holds(st, w, c.frames, c.consumed)
    ensures var r := ExecSeq([CReleaseIvar(slot), CSetIvar(slot, tmp)], st);
      && r.exit.Normal?
      && (Holds(r.st, w, c.frames, c.consumed) <==> Uncounted(st.heap, st.env[tmp]))
  {
    var held := Tokens(Flatten(c.frames), c.consumed, st.env);
    StoreExtraCounts(st.heap, st.out + held, w.self, slot, st.env[tmp]);
    StoreRun(slot, tmp, st, Release(st.heap, st.heap[w.self].fields[slot]).heap);
  }

  // ---------- variables that were moved away ----------

  /** x = e; after x was moved into an ivar: the old value is released although its reference
      is gone, so it must be nil or immortal; then x is tracked again, with the new one. */
  lemma AssignMoved(x: Name, rhs: Expr, c: Ctx, st: State, w: World)
    requires Sound(c) && Tracked(c, x) && x in c.consumed && GoodRhs(rhs, c) && Holds(st, w, c.frames, c.consumed)
    requires x in st.env && Uncounted(st.heap, st.env[x])
    ensures var e := EmitAssign(x, rhs, c); var r := ExecSeq(e.code, st);
      r.exit.Cut? || (r.exit.Normal? && x !in e.ctx.consumed && Holds(r.st, w, e.ctx.frames, e.ctx.consumed))
  {
    if rhs.VarRef? {
      MovedFromVar(x, rhs, c, st, w);
    } else {
      MovedFromOwned(x, rhs, c, st, w);
    }
  }

  lemma MovedFromVar(x: Name, rhs: Expr, c: Ctx, st: State, w: World)
    requires Sound(c) && Tracked(c, x) && x in c.consumed && rhs.VarRef? && Usable(c, rhs.x)
    requires Holds(st, w, c.frames, c.consumed) && x in st.env && Uncounted(st.heap, st.env[x])
    ensures var r := ExecSeq(EmitAssign(x, rhs, c).code, st);
      r.exit.Normal? && Holds(r.st, w, c.frames, c.consumed - {x})
  {
    var held := Tokens(Flatten(c.frames), c.consumed, st.env);
    TokensTake(Flatten(c.frames), c.consumed, st.env, rhs.x);
    HeldIsLive(st, w, held, st.env[rhs.x]);
    RetainVar(rhs.x, st, w, held);
    RetainImmortals(rhs.x, st);
    var h := Exec(CRetain(rhs.x), st).st.heap;
    SameUncounted(st.heap, h);
    assert EmitAssign(x, rhs, c).code == [CRetain(rhs.x)] + ([CRelease(x)] + [CAssign(x, rhs)]);
    MovedRun(x, rhs.x, st, h);
    BackInScope(c, st.env, st.(heap := h, env := st.env[x := st.env[rhs.x]]), w, x);
  }

  lemma MovedRun(x: Name, y: Name, st: State, h: Heap)
    requires x in st.env && y in st.env && Exec(CRetain(y), st) == Run(Normal, st.(heap := h))
    requires Uncounted(h, st.env[x]) && !FreedAt(h, st.env[x])
    ensures ExecSeq([CRetain(y)] + ([CRelease(x)] + [CAssign(x, VarRef(y))]), st) ==
            Run(Normal, st.(heap := h, env := st.env[x := st.env[y]]))
  {
    ExecStep(CRetain(y), [CRelease(x)] + [CAssign(x, VarRef(y))], st);
    IdleRelease(x, [CAssign(x, VarRef(y))], st.(heap := h));
    ExecOne(CAssign(x, VarRef(y)), st.(heap := h));
  }

  lemma MovedFromOwned(x: Name, rhs: Expr, c: Ctx, st: State, w: World)
    requires Sound(c) && Tracked(c, x) && x in c.consumed && (rhs.NilExpr? || rhs.Fresh?)
    requires Holds(st, w, c.frames, c.consumed) && x in st.env && Uncounted(st.heap, st.env[x])
    ensures var r := ExecSeq(EmitAssign(x, rhs, c).code, st);
      r.exit.Cut? || (r.exit.Normal? && Holds(r.st, w, c.frames, c.consumed - {x}))
  {
    assert EmitAssign(x, rhs, c).code == [CRelease(x)] + [CAssign(x, rhs)];
    IdleRelease(x, [CAssign(x, rhs)], st);
    ExecOne(CAssign(x, rhs), st);
    BindVar(x, rhs, st, w, Tokens(Flatten(c.frames), c.consumed, st.env));
    var r := Exec(CAssign(x, rhs), st);
    if r.exit.Normal? {
      BackInScope(c, st.env, r.st, w, x);
    }
  }

  /** Releasing nil or an immortal object does nothing. */
  lemma IdleRelease(x: Name, code: seq<Code>, st: State)
    requires x in st.env && Uncounted(st.heap, st.env[x]) && !FreedAt(st.heap, st.env[x])
    ensures ExecSeq([CRelease(x)] + code, st) == ExecSeq(code, st)
  {
    ExecStep(CRelease(x), code, st);
  }

  predicate FreedAt(h: Heap, r: Ref) {
    r.Obj? && r.id < |h| && h[r.id].status.Freed?
  }

  lemma BackInScope(c: Ctx, env: map<Name, Ref>, st: State, w: World, x: Name)
    requires Sound(c) && Tracked(c, x) && x in c.consumed
    requires x in st.env && st.env == env[x := st.env[x]]
    requires forall y :: y in Flatten(c.frames) && y !in c.consumed ==> y in env
    requires Owns(st, w, Tokens(Flatten(c.frames), c.consumed, env) + multiset{st.env[x]})
    ensures Holds(st, w, c.frames, c.consumed - {x})
  {
    TokensBack(c, env, st, x);
  }

  /** As long as the ivar that x was moved into still refers to its old value, that is the
      exact condition: x = e; keeps the counts right if and only if the old value is nil or
      immortal, where a call in e does nothing but return its value. */
  lemma AssignMovedExact(x: Name, rhs: Expr, slot: nat, c: Ctx, st: State, w: World)
    requires Sound(c) && Tracked(c, x) && x in c.consumed && GoodRhs(rhs, c)
    requires Holds(st, w, c.frames, c.consumed) && x in st.env
    requires slot < |st.heap[w.self].fields| && st.heap[w.self].fields[slot] == st.env[x]
    requires rhs.Fresh? && st.choices != [] ==> !st.choices[0].Act?
    ensures var e := EmitAssign(x, rhs, c); var r := ExecSeq(e.code, st);
      || r.exit.Cut?
      || (r.exit.Normal? && (Holds(r.st, w, e.ctx.frames, e.ctx.consumed) <==> Uncounted(st.heap, st.env[x])))
  {
    if rhs.VarRef? {
      MovedTwice(x, rhs, slot, c, st, w);
    } else if rhs.Fresh? {
      assert EmitAssign(x, rhs, c).code == [CRelease(x)] + [CAssign(x, Fresh)];
      OwnedTwice(x, slot, c, st, w);
    } else {
      var held := Tokens(Flatten(c.frames), c.consumed, st.env);
      NilCounts(st.heap, st.out + held, st.out + (held + multiset{Nil}));
      assert EmitAssign(x, rhs, c).code == [CRelease(x)] + [CAssign(x, rhs)];
      ReleasedTwice(x, rhs, Nil, slot, c, st, w);
    }
  }

  lemma MovedTwice(x: Name, rhs: Expr, slot: nat, c: Ctx, st: State, w: World)
    requires Sound(c) && Tracked(c, x) && x in c.consumed && rhs.VarRef? && Usable(c, rhs.x)
    requires Holds(st, w, c.frames, c.consumed) && x in st.env
    requires slot < |st.heap[w.self].fields| && st.heap[w.self].fields[slot] == st.env[x]
    ensures var r := ExecSeq(EmitAssign(x, rhs, c).code, st);
      r.exit.Normal? && (Holds(r.st, w, c.frames, c.consumed - {x}) <==> Uncounted(st.heap, st.env[x]))
  {
    var held := Tokens(Flatten(c.frames), c.consumed, st.env);
    TokensTake(Flatten(c.frames), c.consumed, st.env, rhs.x);
    HeldIsLive(st, w, held, st.env[rhs.x]);
    RetainVar(rhs.x, st, w, held);
    RetainImmortals(rhs.x, st);
    var st1 := Exec(CRetain(rhs.x), st).st;
    SameUncounted(st.heap, st1.heap);
    ExecStep(CRetain(rhs.x), [CRelease(x)] + [CAssign(x, rhs)], st);
    assert EmitAssign(x, rhs, c).code == [CRetain(rhs.x)] + ([CRelease(x)] + [CAssign(x, rhs)]);
    ReleasedTwice(x, rhs, st.env[rhs.x], slot, c, st1, w);
  }

  lemma OwnedTwice(x: Name, slot: nat, c: Ctx, st: State, w: World)
    requires Sound(c) && Tracked(c, x) && x in c.consumed
    requires Holds(st, w, c.frames, c.consumed) && x in st.env
    requires slot < |st.heap[w.self].fields| && st.heap[w.self].fields[slot] == st.env[x]
    requires st.choices != [] ==> !st.choices[0].Act?
    ensures var r := ExecSeq([CRelease(x)] + [CAssign(x, Fresh)], st);
      || r.exit.Cut?
      || (r.exit.Normal? && (Holds(r.st, w, c.frames, c.consumed - {x}) <==> Uncounted(st.heap, st.env[x])))
  {
    var held := Tokens(Flatten(c.frames), c.consumed, st.env);
    SpareRelease(st.heap, st.out + held, w.self, slot);
    var st1 := st.(heap := Release(st.heap, st.env[x]).heap);
    ReleaseThen(x, CAssign(x, Fresh), st);
    FreshExact(st1, w, held);
    var e := Eval(Fresh, st1);
    if e.Val? {
      BindValue(x, Fresh, st1);
      var st2 := e.st.(env := st.env[x := e.v]);
      TokensBack(c, st.env, st2, x);
      assert Owns(st2, w, held + multiset{e.v}) <==> Uncounted(st.heap, st.env[x]);
    }
  }

  /** An owning call that does nothing else gives one reference, whether or not the counts
      were right before. */
  lemma FreshExact(st: State, w: World, held: multiset<Ref>)
    requires st.choices != [] ==> !st.choices[0].Act?
    requires st.self == w.self && ActiveAt(st.heap, w.self) && st.heap[w.self].cls == w.cls && AllPositive(st.heap)
    ensures var r := Eval(Fresh, st);
      if r.NoVal? then r.exit.Cut?
      else r.st == st.(heap := r.st.heap, choices := r.st.choices) && ActiveAt(r.st.heap, w.self)
           && r.st.heap[w.self].cls == w.cls
           && (Counted(r.st.heap, st.out + (held + multiset{r.v})) <==> Counted(st.heap, st.out + held))
  {
    if st.choices != [] {
      var v := EvalFresh(st.choices[0], st.(choices := st.choices[1..]));
      var all := st.out + held;
      if v.Val? {
        assert all + multiset{v.v} == st.out + (held + multiset{v.v});
        match st.choices[0]
        case NewObject(cls) => NewExact(st.heap, all, cls);
        case OwnNil => NilCountsExact(st.heap, all);
        case OwnShared(id) => RetainExact(st.heap, all, Obj(id));
      }
    }
  }

  lemma NilCountsExact(h: Heap, held: multiset<Ref>)
    ensures Counted(h, held + multiset{Nil}) <==> Counted(h, held)
  {
    if Counted(h, held) {
      NilCounts(h, held, held + multiset{Nil});
    }
    if Counted(h, held + multiset{Nil}) {
      NilCounts(h, held + multiset{Nil}, held);
    }
  }

  lemma RetainExact(h: Heap, held: multiset<Ref>, r: Ref)
    requires r.Obj? && ActiveAt(h, r.id) && AllPositive(h)
    ensures Counted(Retain(h, r).heap, held + multiset{r}) <==> Counted(h, held)
  {
    var h', held' := Retain(h, r).heap, held + multiset{r};
    if Counted(h, held) {
      RetainCounts(h, held, r);
    }
    if Counted(h', held') {
      forall i: nat ensures CountedAt(h, held, NoHole, i) {
        RetainedAt(h, held, r, i);
      }
      assert forall k :: 0 <= k < |h| ==> h[k] == h'[k].(rc := h[k].rc);
    }
  }

  lemma RetainedAt(h: Heap, held: multiset<Ref>, r: Ref, i: nat)
    requires r.Obj? && ActiveAt(h, r.id) && AllPositive(h)
    requires CountedAt(Retain(h, r).heap, held + multiset{r}, NoHole, i)
    ensures CountedAt(h, held, NoHole, i)
  {
    var h' := Retain(h, r).heap;
    forall k: nat | k < |h| ensures CellRefs(h, k, NoHole) == CellRefs(h', k, NoHole) {
      assert h'[k] == h[k].(rc := h'[k].rc);
    }
    RefsUnchanged(h, h', |h|, NoHole, NoHole, Obj(i));
    assert (held + multiset{r})[Obj(i)] == held[Obj(i)] + if r == Obj(i) then 1 else 0;
  }

  lemma NewExact(h: Heap, held: multiset<Ref>, cls: Class)
    ensures Counted(h + [NewCell(cls)], held + multiset{Obj(|h|)}) <==> Counted(h, held)
  {
    var h', held' := h + [NewCell(cls)], held + multiset{Obj(|h|)};
    if Counted(h, held) {
      NewCounts(h, held, NewCell(cls), held');
    }
    if Counted(h', held') {
      forall i: nat ensures CountedAt(h, held, NoHole, i) {
        assert CountedAt(h', held', NoHole, i);
        RefsUnchanged(h, h', |h|, NoHole, NoHole, Obj(i));
        assert CellRefs(h', |h|, NoHole) == multiset(NewCell(cls).fields);
        assert held'[Obj(i)] == held[Obj(i)] + if i == |h| then 1 else 0;
      }
      assert forall i :: 0 <= i < |h| ==> h[i] == h'[i];
    }
  }

  /** A release of what an ivar holds, without a reference for it. */
  lemma SpareRelease(h: Heap, held: multiset<Ref>, self: nat, slot: nat)
    requires Counted(h, held) && Obj(self) in held && self < |h| && slot < |h[self].fields|
    ensures var v := h[self].fields[slot]; var res := Release(h, v);
      && res.Ok? && ActiveAt(res.heap, self) && res.heap[self].cls == h[self].cls && AllPositive(res.heap)
      && (Counted(res.heap, held) <==> Uncounted(h, v))
  {
    var v := h[self].fields[slot];
    StoreExtraCounts(h, held, self, slot, v);
    SetSame(Release(h, v).heap, self, slot);
  }

  lemma SetSame(h: Heap, id: nat, slot: nat)
    requires id < |h| && slot < |h[id].fields|
    ensures SetField(h, id, slot, h[id].fields[slot]) == h
  {
    assert h[id].fields[slot := h[id].fields[slot]] == h[id].fields;
    assert h[id := h[id]] == h;
  }

  lemma ReleasedTwice(x: Name, rhs: Expr, v: Ref, slot: nat, c: Ctx, st: State, w: World)
    requires Sound(c) && Tracked(c, x) && x in c.consumed && x in st.env
    requires if rhs.VarRef? then rhs.x in st.env && v == st.env[rhs.x] else rhs.NilExpr? && v.Nil?
    requires forall y :: y in Flatten(c.frames) && y !in c.consumed ==> y in st.env
    requires Owns(st, w, Tokens(Flatten(c.frames), c.consumed, st.env) + multiset{v})
    requires slot < |st.heap[w.self].fields| && st.heap[w.self].fields[slot] == st.env[x]
    ensures var r := ExecSeq([CRelease(x)] + [CAssign(x, rhs)], st);
      r.exit.Normal? && (Holds(r.st, w, c.frames, c.consumed - {x}) <==> Uncounted(st.heap, st.env[x]))
  {
    var held := Tokens(Flatten(c.frames), c.consumed, st.env) + multiset{v};
    SpareRelease(st.heap, st.out + held, w.self, slot);
    var st1 := st.(heap := Release(st.heap, st.env[x]).heap, env := st.env[x := v]);
    ReleaseBind(x, rhs, v, st);
    TokensBack(c, st.env, st1, x);
    assert Owns(st1, w, held) <==> Uncounted(st.heap, st.env[x]);
  }

  lemma ReleaseBind(x: Name, rhs: Expr, v: Ref, st: State)
    requires x in st.env && Release(st.heap, st.env[x]).Ok?
    requires if rhs.VarRef? then rhs.x in st.env && v == st.env[rhs.x] else rhs.NilExpr? && v.Nil?
    ensures ExecSeq([CRelease(x)] + [CAssign(x, rhs)], st) ==
            Run(Normal, st.(heap := Release(st.heap, st.env[x]).heap, env := st.env[x := v]))
  {
    BindRun(x, rhs, v, st.(heap := Release(st.heap, st.env[x]).heap));
    ReleaseThen(x, CAssign(x, rhs), st);
  }

  lemma ReleaseThen(x: Name, code: Code, st: State)
    requires x in st.env && Release(st.heap, st.env[x]).Ok?
    ensures ExecSeq([CRelease(x)] + [code], st) == Exec(code, st.(heap := Release(st.heap, st.env[x]).heap))
  {
    var st1 := st.(heap := Release(st.heap, st.env[x]).heap);
    assert Exec(CRelease(x), st) == Run(Normal, st1);
    ExecStep(CRelease(x), [code], st);
    ExecOne(code, st1);
  }

  lemma BindRun(x: Name, rhs: Expr, v: Ref, st: State)
    requires if rhs.VarRef? then rhs.x in st.env && v == st.env[rhs.x] else rhs.NilExpr? && v.Nil?
    ensures Exec(CAssign(x, rhs), st) == Run(Normal, st.(env := st.env[x := v]))
  {
    var e := Eval(rhs, st);
    assert e == Val(v, st);
    BindValue(x, rhs, st);
  }

  lemma BindValue(x: Name, rhs: Expr, st: State)
    requires Eval(rhs, st).Val?
    ensures var e := Eval(rhs, st); Exec(CAssign(x, rhs), st) == Run(Normal, e.st.(env := e.st.env[x := e.v]))
  {
  }

  lemma TokensBack(c: Ctx, env: map<Name, Ref>, st: State, x: Name)
    requires Sound(c) && Tracked(c, x) && x in c.consumed && x in st.env && st.env == env[x := st.env[x]]
    ensures Tokens(Flatten(c.frames), c.consumed - {x}, st.env) ==
            Tokens(Flatten(c.frames), c.consumed, env) + multiset{st.env[x]}
  {
    var names := Flatten(c.frames);
    TokensAgree(names, c.consumed, env, c.consumed, st.env);
    TokensSplit(names, c.consumed - {x}, st.env, x);
    assert c.consumed - {x} + {x} == c.consumed;
  }
}
