/**
 The references owned by the tracked variables of a running method, and what each
 emitted statement does to them.
 */
module ArcTokens {
  import opened Wrappers
  import opened ObjectHeap
  import opened Cascade
  import opened ArcSyntax
  import opened ArcFragment
  import opened ArcMachine

  function Get(env: map<Name, Ref>, x: Name): Ref {
    if x in env then env[x] else Nil
  }

  /** One reference for each tracked variable that has not been moved away. */
  ghost function Tokens(names: seq<Name>, consumed: set<Name>, env: map<Name, Ref>): multiset<Ref> {
    if names == [] then multiset{}
    else
      var n := |names| - 1;
      Tokens(names[..n], consumed, env) + if names[n] in consumed then multiset{} else multiset{Get(env, names[n])}
  }

  lemma {:induction false} TokensAppend(a: seq<Name>, b: seq<Name>, consumed: set<Name>, env: map<Name, Ref>)
    ensures Tokens(a + b, consumed, env) == Tokens(a, consumed, env) + Tokens(b, consumed, env)
  {
    if b == [] {
      assert a + b == a;
    } else {
      var n := |b| - 1;
      assert (a + b)[..|a + b| - 1] == a + b[..n];
      TokensAppend(a, b[..n], consumed, env);
    }
  }

  lemma {:induction false} TokensAgree(names: seq<Name>, consumed: set<Name>, env: map<Name, Ref>,
                                       consumed': set<Name>, env': map<Name, Ref>)
    requires forall x :: x in names ==> (x in consumed <==> x in consumed')
    requires forall x :: x in names && x !in consumed ==> Get(env, x) == Get(env', x)
    ensures Tokens(names, consumed, env) == Tokens(names, consumed', env')
  {
    if names != [] {
      TokensAgree(names[..|names| - 1], consumed, env, consumed', env');
    }
  }

  lemma TokensLast(names: seq<Name>, consumed: set<Name>, env: map<Name, Ref>, r: Ref)
    requires names != []
    ensures var n := |names| - 1;
      Tokens(names, consumed, env)[r] ==
      Tokens(names[..n], consumed, env)[r] + if names[n] !in consumed && Get(env, names[n]) == r then 1 else 0
  {
  }

  lemma {:induction false} TokensCount(names: seq<Name>, consumed: set<Name>, env: map<Name, Ref>, x: Name, r: Ref)
    requires Distinct(names) && x in names && x !in consumed
    ensures Tokens(names, consumed, env)[r] == Tokens(names, consumed + {x}, env)[r] + if Get(env, x) == r then 1 else 0
  {
    var n := |names| - 1;
    TokensLast(names, consumed, env, r);
    TokensLast(names, consumed + {x}, env, r);
    if names[n] == x {
      assert x !in names[..n];
      TokensAgree(names[..n], consumed, env, consumed + {x}, env);
    } else {
      TokensCount(names[..n], consumed, env, x, r);
    }
  }

  lemma TokensSplit(names: seq<Name>, consumed: set<Name>, env: map<Name, Ref>, x: Name)
    requires Distinct(names) && x in names && x !in consumed
    ensures Tokens(names, consumed, env) == Tokens(names, consumed + {x}, env) + multiset{Get(env, x)}
  {
    var rest := Tokens(names, consumed + {x}, env);
    forall r ensures Tokens(names, consumed, env)[r] == (rest + multiset{Get(env, x)})[r] {
      TokensCount(names, consumed, env, x, r);
    }
  }

  /** The reference of one variable can be split off. */
  lemma TokensTake(names: seq<Name>, consumed: set<Name>, env: map<Name, Ref>, x: Name)
    requires Distinct(names) && x in names && x !in consumed
    ensures Get(env, x) in Tokens(names, consumed, env)
    ensures Tokens(names, consumed + {x}, env) == Tokens(names, consumed, env) - multiset{Get(env, x)}
  {
    TokensSplit(names, consumed, env, x);
  }

  lemma TokensSet(names: seq<Name>, consumed: set<Name>, env: map<Name, Ref>, x: Name, v: Ref)
    requires Distinct(names) && x in names && x !in consumed
    ensures Tokens(names, consumed, env[x := v]) == Tokens(names, consumed, env) - multiset{Get(env, x)} + multiset{v}
  {
    TokensSplit(names, consumed, env, x);
    TokensSplit(names, consumed, env[x := v], x);
    TokensAgree(names, consumed + {x}, env, consumed + {x}, env[x := v]);
  }

  // ---------- the state of a running method ----------

  /** The receiver. */
  datatype World = World(self: nat, cls: Class)

  ghost predicate Owns(st: State, w: World, held: multiset<Ref>) {
    && st.self == w.self && Obj(w.self) in st.out
    && ActiveAt(st.heap, w.self) && st.heap[w.self].cls == w.cls
    && Counted(st.heap, st.out + held)
  }

  /** The count equation of the property: callers, ivars and in-scope variables. */
  ghost predicate Holds(st: State, w: World, frames: seq<seq<Name>>, consumed: set<Name>) {
    && Owns(st, w, Tokens(Flatten(frames), consumed, st.env))
    && forall x :: x in Flatten(frames) && x !in consumed ==> x in st.env
  }

  lemma HoldsAgree(st: State, w: World, frames: seq<seq<Name>>, consumed: set<Name>, consumed': set<Name>)
    requires Holds(st, w, frames, consumed)
    requires forall x :: x in Flatten(frames) ==> (x in consumed <==> x in consumed')
    ensures Holds(st, w, frames, consumed')
  {
    TokensAgree(Flatten(frames), consumed, st.env, consumed', st.env);
  }

  lemma HeldIsLive(st: State, w: World, held: multiset<Ref>, r: Ref)
    requires Owns(st, w, held) && r in held
    ensures Live(st.heap, r)
  {
    if r.Obj? {
      assert CountedAt(st.heap, st.out + held, NoHole, r.id);
    }
  }

  // ---------- callees ----------

  /** Exchanging a reference for the content of an ivar. */
  lemma PutCounts(h: Heap, held: multiset<Ref>, id: nat, slot: nat, r: Ref)
    requires Counted(h, held) && (r.Nil? || r in held)
    requires ActiveAt(h, id) && slot < |h[id].fields|
    ensures Counted(SetField(h, id, slot, r), held - multiset{r} + multiset{h[id].fields[slot]})
  {
    var was := h[id].fields[slot];
    var all := if r.Nil? then held + multiset{Nil} else held;
    var rest := all - multiset{r} + multiset{was};
    NilCounts(h, held, all);
    OpenHole(h, all, Hole(id, slot));
    assert rest + multiset{r} == all + multiset{was};
    FillHole(h, rest, Hole(id, slot), r);
    NilCounts(SetField(h, id, slot, r), rest, held - multiset{r} + multiset{was});
  }

  lemma KeepOwns(r: Ref, st: State, w: World, held: multiset<Ref>)
    requires Owns(st, w, held) && Live(st.heap, r)
    ensures var res := Retain(st.heap, r);
      res.Ok? && Owns(st.(heap := res.heap, out := st.out + multiset{r}), w, held)
  {
    RetainCounts(st.heap, st.out + held, r);
    assert st.out + held + multiset{r} == st.out + multiset{r} + held;
  }

  lemma DropOwns(r: Ref, st: State, w: World, held: multiset<Ref>)
    requires Owns(st, w, held) && r in st.out && Obj(w.self) in st.out - multiset{r}
    ensures var res := Release(st.heap, r);
      res.Ok? && Owns(st.(heap := res.heap, out := st.out - multiset{r}), w, held)
  {
    ReleaseCascade(st.heap, st.out + held, r, {}, NoHole);
    assert st.out + held - multiset{r} == st.out - multiset{r} + held;
    SelfStays(Release(st.heap, r).heap, st.out - multiset{r}, w, held);
  }

  lemma PutOwns(id: nat, slot: nat, r: Ref, st: State, w: World, held: multiset<Ref>)
    requires Owns(st, w, held) && ActiveAt(st.heap, id) && slot < |st.heap[id].fields|
    requires (r.Nil? || r in st.out) && Obj(w.self) in st.out - multiset{r}
    ensures Owns(st.(heap := SetField(st.heap, id, slot, r),
                     out := st.out - multiset{r} + multiset{st.heap[id].fields[slot]}), w, held)
  {
    var was := st.heap[id].fields[slot];
    PutCounts(st.heap, st.out + held, id, slot, r);
    NilCounts(SetField(st.heap, id, slot, r), st.out + held - multiset{r} + multiset{was},
              st.out - multiset{r} + multiset{was} + held);
  }

  lemma MakeOwns(cls: Class, st: State, w: World, held: multiset<Ref>)
    requires Owns(st, w, held)
    ensures Owns(st.(heap := st.heap + [NewCell(cls)], out := st.out + multiset{Obj(|st.heap|)}), w, held)
  {
    NewCounts(st.heap, st.out + held, NewCell(cls), st.out + multiset{Obj(|st.heap|)} + held);
  }

  /** What a callee does leaves the method's own references alone. */
  lemma PerformOwns(d: Deed, st: State, w: World, held: multiset<Ref>)
    requires Owns(st, w, held)
    ensures var r := Perform(d, st); r.exit.Cut? || (r.exit.Normal? && Owns(r.st, w, held))
  {
    if Allowed(d, st) {
      match d
      case Keep(r) => KeepOwns(r, st, w, held);
      case Drop(r) => DropOwns(r, st, w, held);
      case Put(id, slot, r) => PutOwns(id, slot, r, st, w, held);
      case Make(cls) => MakeOwns(cls, st, w, held);
    }
  }

  lemma SelfStays(h: Heap, out: multiset<Ref>, w: World, held: multiset<Ref>)
    requires Counted(h, out + held) && Obj(w.self) in out
    ensures ActiveAt(h, w.self)
  {
    assert CountedAt(h, out + held, NoHole, w.self);
  }

  lemma {:induction false} AskOwns(st: State, w: World, held: multiset<Ref>)
    requires Owns(st, w, held)
    ensures var a := Ask(st); if a.Answer? then Owns(a.st, w, held) else a.exit.Cut?
    decreases |st.choices|
  {
    if st.choices != [] && st.choices[0].Act? {
      var st1 := st.(choices := st.choices[1..]);
      PerformOwns(st.choices[0].deed, st1, w, held);
      var r := Perform(st.choices[0].deed, st1);
      if r.exit.Normal? {
        AskOwns(r.st, w, held);
      }
    }
  }

  // ---------- single statements ----------

  lemma RetainVar(x: Name, st: State, w: World, held: multiset<Ref>)
    requires Owns(st, w, held) && x in st.env && Live(st.heap, st.env[x])
    ensures var r := Exec(CRetain(x), st);
      && r.exit.Normal? && r.st == st.(heap := r.st.heap)
      && Owns(r.st, w, held + multiset{st.env[x]})
  {
    RetainCounts(st.heap, st.out + held, st.env[x]);
    assert st.out + held + multiset{st.env[x]} == st.out + (held + multiset{st.env[x]});
  }

  lemma ReleaseOwns(v: Ref, st: State, w: World, held: multiset<Ref>)
    requires Owns(st, w, held) && v in held
    ensures var res := Release(st.heap, v);
      res.Ok? && forall env :: Owns(st.(heap := res.heap, env := env), w, held - multiset{v})
  {
    ReleaseCascade(st.heap, st.out + held, v, {}, NoHole);
    assert st.out + held - multiset{v} == st.out + (held - multiset{v});
    SelfStays(Release(st.heap, v).heap, st.out, w, held - multiset{v});
  }

  lemma ReleaseVar(x: Name, st: State, w: World, held: multiset<Ref>)
    requires Owns(st, w, held) && x in st.env && st.env[x] in held
    ensures var r := Exec(CRelease(x), st);
      && r.exit.Normal? && r.st == st.(heap := r.st.heap)
      && Owns(r.st, w, held - multiset{st.env[x]})
  {
    ReleaseOwns(st.env[x], st, w, held);
  }

  /** The reference v moves from the method's hands into an ivar of the receiver. */
  lemma StoreOwns(slot: nat, v: Ref, st: State, w: World, held: multiset<Ref>)
    requires Owns(st, w, held) && v in held && slot < |Slots(w.cls)|
    ensures var res := Release(st.heap, st.heap[w.self].fields[slot]);
      && res.Ok? && ActiveAt(res.heap, w.self) && slot < |res.heap[w.self].fields|
      && Owns(st.(heap := SetField(res.heap, w.self, slot, v)), w, held - multiset{v})
  {
    var rest := st.out + (held - multiset{v});
    assert rest + multiset{v} == st.out + held;
    StoreCounts(st.heap, rest, w.self, slot, v);
  }

  /** release(self->f); self->f = x; */
  lemma StoreRun(slot: nat, x: Name, st: State, h: Heap)
    requires x in st.env && ReadSelf(st) && slot < |st.heap[st.self].fields|
    requires Release(st.heap, st.heap[st.self].fields[slot]) == Ok(h)
    requires ActiveAt(h, st.self) && slot < |h[st.self].fields|
    ensures ExecSeq([CReleaseIvar(slot), CSetIvar(slot, x)], st) ==
            Run(Normal, st.(heap := SetField(h, st.self, slot, st.env[x])))
  {
    ExecStep(CReleaseIvar(slot), [CSetIvar(slot, x)], st);
    ExecOne(CSetIvar(slot, x), st.(heap := h));
  }

  lemma StoreVar(slot: nat, x: Name, st: State, w: World, held: multiset<Ref>)
    requires Owns(st, w, held) && x in st.env && st.env[x] in held && slot < |Slots(w.cls)|
    ensures var r := ExecSeq([CReleaseIvar(slot), CSetIvar(slot, x)], st);
      && r.exit.Normal? && r.st == st.(heap := r.st.heap)
      && Owns(r.st, w, held - multiset{st.env[x]})
  {
    StoreOwns(slot, st.env[x], st, w, held);
    StoreRun(slot, x, st, Release(st.heap, st.heap[w.self].fields[slot]).heap);
  }

  /** Values an emitted expression may name without touching freed memory. */
  ghost predicate Readable(e: Expr, st: State, w: World, held: multiset<Ref>) {
    match e
    case VarRef(x) => x in st.env && st.env[x] in held
    case IvarRef(slot) => slot < |Slots(w.cls)|
    case _ => true
  }

  /** The reference that evaluating e hands over: one for owning calls, and nil is free. */
  function Given(e: Expr, v: Ref): multiset<Ref> {
    if e.Fresh? || e.NilExpr? then multiset{v} else multiset{}
  }

  lemma EvalOwns(e: Expr, st: State, w: World, held: multiset<Ref>)
    requires Owns(st, w, held) && Readable(e, st, w, held)
    ensures var r := Eval(e, st);
      match r
      case NoVal(exit) => exit.Cut?
      case Val(v, st1) =>
        && Owns(st1, w, held + Given(e, v)) && Live(st1.heap, v) && st1.env == st.env
  {
    assert held + multiset{} == held;
    match e
    case NilExpr => NilCounts(st.heap, st.out + held, st.out + (held + multiset{Nil}));
    case VarRef(x) => HeldIsLive(st, w, held, st.env[x]);
    case IvarRef(slot) =>
      var r := st.heap[w.self].fields[slot];
      if r.Obj? {
        FieldLive(st.heap, st.out + held, w.self, slot);
      }
    case SelfRef =>
    case _ => CallOwns(e, st, w, held);
  }

  lemma CallOwns(e: Expr, st: State, w: World, held: multiset<Ref>)
    requires Owns(st, w, held) && (e.Fresh? || e.Borrowed?)
    ensures var r := Eval(e, st);
      match r
      case NoVal(exit) => exit.Cut?
      case Val(v, st1) => Owns(st1, w, held + Given(e, v)) && Live(st1.heap, v) && st1.env == st.env
  {
    AskOwns(st, w, held);
    var a := Ask(st);
    assert held + multiset{} == held;
    if a.Answer? && e.Fresh? {
      FreshOwns(a.c, a.st, w, held);
    }
  }

  /** An expression that gives nothing away leaves the held references as they were. */
  lemma NothingGiven(e: Expr, v: Ref, st: State, w: World, held: multiset<Ref>)
    requires Owns(st, w, held + Given(e, v)) && !e.Fresh? && (e.NilExpr? ==> v.Nil?)
    ensures Owns(st, w, held)
  {
    NilCounts(st.heap, st.out + (held + Given(e, v)), st.out + held);
  }

  lemma FieldLive(h: Heap, held: multiset<Ref>, i: nat, slot: nat)
    requires Counted(h, held) && ActiveAt(h, i) && slot < |h[i].fields| && h[i].fields[slot].Obj?
    ensures ActiveAt(h, h[i].fields[slot].id)
  {
    var o := h[i].fields[slot].id;
    assert Obj(o) in CellRefs(h, i, NoHole);
    RefsContain(h, |h|, i, NoHole, Obj(o));
    assert CountedAt(h, held, NoHole, o);
  }

  lemma FreshOwns(c: Choice, st: State, w: World, held: multiset<Ref>)
    requires Owns(st, w, held)
    ensures var r := EvalFresh(c, st);
      match r
      case NoVal(exit) => exit.Cut?
      case Val(v, st1) =>
        && Owns(st1, w, held + multiset{v}) && Live(st1.heap, v) && st1 == st.(heap := st1.heap)
  {
    var all := st.out + held;
    match c
    case NewObject(cls) =>
      var v := Obj(|st.heap|);
      NewCounts(st.heap, all, NewCell(cls), st.out + (held + multiset{v}));
    case OwnNil =>
      NilCounts(st.heap, all, st.out + (held + multiset{Nil}));
    case OwnShared(id) =>
      if Live(st.heap, Obj(id)) {
        RetainCounts(st.heap, all, Obj(id));
        assert all + multiset{Obj(id)} == st.out + (held + multiset{Obj(id)});
      }
    case _ =>
  }

  /** T x = e; or x = e; with the reference of e, if it gives one, still in transit. */
  lemma BindVar(x: Name, e: Expr, st: State, w: World, held: multiset<Ref>)
    requires Owns(st, w, held) && Readable(e, st, w, held)
    ensures Exec(CDeclare(x, e), st) == Exec(CAssign(x, e), st)
    ensures var r := Exec(CDeclare(x, e), st);
      || r.exit.Cut?
      || (&& r.exit.Normal? && x in r.st.env && r.st.env == st.env[x := r.st.env[x]]
          && (e.VarRef? ==> r.st.env[x] == st.env[e.x]) && (e.NilExpr? ==> r.st.env[x].Nil?)
          && Owns(r.st, w, held + Given(e, r.st.env[x])) && Live(r.st.heap, r.st.env[x]))
  {
    EvalOwns(e, st, w, held);
  }

  /** A variable that enters its scope brings the reference it was given. */
  lemma HoldsNew(env: map<Name, Ref>, st: State, w: World, frames: seq<seq<Name>>, frames': seq<seq<Name>>,
                 consumed: set<Name>, x: Name)
    requires Flatten(frames') == Flatten(frames) + [x] && x !in consumed
    requires x in st.env
    requires forall y :: y in Flatten(frames) && y !in consumed ==> y in env && y in st.env && st.env[y] == env[y]
    requires Owns(st, w, Tokens(Flatten(frames), consumed, env) + multiset{st.env[x]})
    ensures Holds(st, w, frames', consumed)
  {
    var names := Flatten(frames);
    TokensAgree(names, consumed, env, consumed, st.env);
    assert (names + [x])[..|names|] == names;
  }

  /** A variable in scope gives up its old reference and takes a new one. */
  lemma HoldsSet(env: map<Name, Ref>, st: State, w: World, frames: seq<seq<Name>>, consumed: set<Name>, x: Name, v: Ref)
    requires Distinct(Flatten(frames)) && x in Flatten(frames) && x !in consumed
    requires forall y :: y in Flatten(frames) && y !in consumed ==> y in env
    requires st.env == env[x := v]
    requires Owns(st, w, Tokens(Flatten(frames), consumed, env) - multiset{env[x]} + multiset{v})
    ensures Holds(st, w, frames, consumed)
  {
    TokensSet(Flatten(frames), consumed, env, x, v);
  }

  /** Holding nil, or not, makes no difference. */
  lemma NilCounts(h: Heap, held: multiset<Ref>, held': multiset<Ref>)
    requires Counted(h, held) && forall i: nat :: held'[Obj(i)] == held[Obj(i)]
    ensures Counted(h, held')
  {
    forall i: nat ensures CountedAt(h, held', NoHole, i) {
      assert CountedAt(h, held, NoHole, i);
    }
  }

  /** Creating the lock of a @synchronized block. */
  lemma LockOwns(x: Name, v: Ref, st: State, w: World, held: multiset<Ref>)
    requires Owns(st, w, held) && Live(st.heap, v)
    ensures var r := Lock(x, v, st);
      && r.exit.Normal? && r.st == st.(heap := r.st.heap, env := r.st.env)
      && r.st.env.Keys == st.env.Keys + {x} && (forall y :: y in st.env && y != x ==> r.st.env[y] == st.env[y])
      && Owns(r.st, w, held + multiset{r.st.env[x]})
  {
    var all := st.out + held;
    RetainCounts(st.heap, all, v);
    var h := Retain(st.heap, v).heap;
    var cell := Cell(SpinLock, 1, [v], false, Active);
    assert Slots(SpinLock) == SpinLock.own;
    assert multiset(cell.fields) == multiset{v};
    NewCounts(h, all + multiset{v}, cell, st.out + (held + multiset{Obj(|h|)}));
  }

  /** Evaluating the guarded object and locking it. */
  lemma TakeLock(x: Name, e: Expr, st: State, w: World, held: multiset<Ref>)
    requires Owns(st, w, held) && Readable(e, st, w, held) && !e.Fresh?
    ensures var r := Exec(CLock(x, e), st);
      || r.exit.Cut?
      || (&& r.exit.Normal? && x in r.st.env && Owns(r.st, w, held + multiset{r.st.env[x]})
          && (forall y :: y in st.env && y != x ==> y in r.st.env && r.st.env[y] == st.env[y]))
  {
    EvalOwns(e, st, w, held);
    var v := Eval(e, st);
    if v.Val? {
      NothingGiven(e, v.v, v.st, w, held);
      LockOwns(x, v.v, v.st, w, held);
    }
  }
}
