/**
 Runs of emitted methods whose counts end wrong, one for each form that the balance theorem
 leaves out and that has an exact condition.
 */
module ArcRuns {
  import opened Wrappers
  import opened ObjectHeap
  import opened Cascade
  import opened ArcSyntax
  import opened ArcEmission
  import opened ArcMachine
  import opened ArcTokens
  import opened ArcBoundary

  const Plain := Root("Plain", [])
  const Owner := Root("Owner", [Ivar("f", "Plain")])
  const X := Local("x")

  function Instance(cls: Class, fields: seq<Ref>): Cell {
    Cell(cls, 1, fields, false, Active)
  }

  /** Object 0, and object 1 that a reference outside or an ivar of object 0 keeps. */
  lemma TwoObjects(h: Heap, out: multiset<Ref>)
    requires (h == [Instance(Plain, []), Instance(Plain, [])] && out == multiset{Obj(0), Obj(1)}) ||
             (h == [Instance(Owner, [Obj(1)]), Instance(Plain, [])] && out == multiset{Obj(0)}) ||
             (h == [Instance(Owner, [Nil]), Instance(Plain, [])] && out == multiset{Obj(0), Obj(1)})
    ensures Counted(h, out + multiset{})
  {
    var held := out + multiset{};
    forall i: nat ensures CountedAt(h, held, NoHole, i) {
      assert RefsUpTo(h, 1, NoHole, Obj(i)) == CellRefs(h, 0, NoHole)[Obj(i)];
      assert RefsUpTo(h, 2, NoHole, Obj(i)) == RefsUpTo(h, 1, NoHole, Obj(i)) + CellRefs(h, 1, NoHole)[Obj(i)];
    }
  }

  lemma LastFreed(cell: Cell)
    ensures var h := [cell, Instance(Plain, [])];
      Release(h, Obj(1)) == Ok([cell, Instance(Plain, []).(rc := 0, status := Freed)])
  {
    var h1 := [cell, Instance(Plain, []).(rc := 0, status := Deallocating)];
    RunFree(h1, 1, Plain, 0);
    assert [cell, Instance(Plain, [])][1 := h1[1]] == h1;
  }

  /** A body whose one variable is released at the end. */
  lemma BodyCode(body: seq<Stmt>, code: seq<Code>)
    requires body != [] && !body[|body| - 1].Return?
    requires var c := Push(EntryCtx([]), []); EmitBody(body, c) == Emitted(code, Track(c, X))
    ensures EmitMethod([], body) == code + [CRelease(X)]
  {
    var c := Push(EntryCtx([]), []);
    assert Track(c, X).frames == [[X]];
    assert ReleaseCode([X], {}) == [CRelease(X)] by {
      assert [X][..0] == [];
    }
    assert EmitScope(body, c).code == code + [CRelease(X)];
    assert RetainCode([]) + EmitScope(body, c).code == EmitScope(body, c).code;
  }

  lemma DeclCode(e: Expr)
    requires !IsBorrowed(e)
    ensures var c := Push(EntryCtx([]), []); EmitBody([Decl(X, e)], c) == Emitted([CDeclare(X, e)], Track(c, X))
  {
    assert [Decl(X, e)][..0] == [];
  }

  lemma AssignCode(e: Expr, c: Ctx)
    requires Unowned(e, 0) && c.frames == [[X]] && c.consumed == {}
    ensures EmitStmt(Assign(X, e), c) == Emitted([CRelease(X), CAssign(X, e)], c)
  {
    assert [[X]][..0] == [] && [] + [X] == [X];
    assert c.(consumed := c.consumed - {X}) == c;
  }

  lemma TwoStatements(s1: Stmt, s2: Stmt, c: Ctx, e1: Emitted, e2: Emitted)
    requires EmitBody([s1], c) == e1 && EmitStmt(s2, e1.ctx) == e2
    ensures EmitBody([s1, s2], c) == Emitted(e1.code + e2.code, e2.ctx)
  {
    assert [s1, s2][..1] == [s1];
  }

  /** { T x = [T make]; x = [self borrowed]; } where the owning call returns nil: the
      borrowed object is freed, though the outside still refers to it. */
  lemma BorrowedReassigned()
    ensures
      var body := [Decl(X, Fresh), Assign(X, Borrowed)];
      var h := [Instance(Plain, []), Instance(Plain, [])];
      var st := State(h, map[], 0, multiset{Obj(0), Obj(1)}, [OwnNil, Lend(Obj(1))]);
      var r := ExecSeq(EmitMethod([], body), st);
      && Owns(st, World(0, Plain), multiset{})
      && r.exit.Normal? && Obj(1) in r.st.out && !Live(r.st.heap, Obj(1))
  {
    var h := [Instance(Plain, []), Instance(Plain, [])];
    var st := State(h, map[], 0, multiset{Obj(0), Obj(1)}, [OwnNil, Lend(Obj(1))]);
    ReassignCode();
    TwoObjects(h, st.out);
    LastFreed(h[0]);
    BorrowedRun(h, Release(h, Obj(1)).heap, st.out);
  }

  lemma ReassignCode()
    ensures EmitMethod([], [Decl(X, Fresh), Assign(X, Borrowed)]) ==
            [CDeclare(X, Fresh), CRelease(X), CAssign(X, Borrowed)] + [CRelease(X)]
  {
    var c := Push(EntryCtx([]), []);
    var c1 := Track(c, X);
    var code := [CRelease(X), CAssign(X, Borrowed)];
    assert c1.frames == [[] + [X]] && [] + [X] == [X];
    DeclCode(Fresh);
    AssignCode(Borrowed, c1);
    TwoStatements(Decl(X, Fresh), Assign(X, Borrowed), c, Emitted([CDeclare(X, Fresh)], c1), Emitted(code, c1));
    BodyCode([Decl(X, Fresh), Assign(X, Borrowed)], [CDeclare(X, Fresh)] + code);
    assert [CDeclare(X, Fresh)] + code == [CDeclare(X, Fresh), CRelease(X), CAssign(X, Borrowed)];
  }

  lemma BorrowedRun(h: Heap, h': Heap, out: multiset<Ref>)
    requires Live(h, Obj(1)) && Release(h, Obj(1)) == Ok(h')
    ensures ExecSeq([CDeclare(X, Fresh), CRelease(X), CAssign(X, Borrowed)] + [CRelease(X)],
                    State(h, map[], 0, out, [OwnNil, Lend(Obj(1))])) ==
            Run(Normal, State(h', map[X := Obj(1)], 0, out, []))
  {
    var st := State(h, map[], 0, out, [OwnNil, Lend(Obj(1))]);
    var st1 := State(h, map[X := Nil], 0, out, [Lend(Obj(1))]);
    var st2 := State(h, map[X := Obj(1)], 0, out, []);
    assert Exec(CDeclare(X, Fresh), st) == Run(Normal, st1);
    assert Exec(CRelease(X), st1) == Run(Normal, st1);
    assert Exec(CAssign(X, Borrowed), st1) == Run(Normal, st2);
    FourSteps(CDeclare(X, Fresh), CRelease(X), CAssign(X, Borrowed), CRelease(X), st, st1, st1, st2);
  }

  lemma FourSteps(c1: Code, c2: Code, c3: Code, c4: Code, st: State, st1: State, st2: State, st3: State)
    requires Exec(c1, st) == Run(Normal, st1) && Exec(c2, st1) == Run(Normal, st2)
    requires Exec(c3, st2) == Run(Normal, st3)
    ensures ExecSeq([c1, c2, c3] + [c4], st) == Exec(c4, st3)
  {
    assert [c1, c2, c3] + [c4] == [c1] + ([c2] + ([c3] + [c4]));
    ExecStep(c1, [c2] + ([c3] + [c4]), st);
    ExecStep(c2, [c3] + [c4], st1);
    ExecStep(c3, [c4], st2);
    ExecOne(c4, st3);
  }

  /** { T x = f; } : the object is freed while the ivar f still refers to it. */
  lemma IvarDeclared()
    ensures
      var h := [Instance(Owner, [Obj(1)]), Instance(Plain, [])];
      var st := State(h, map[], 0, multiset{Obj(0)}, []);
      var r := ExecSeq(EmitMethod([], [Decl(X, IvarRef(0))]), st);
      && Owns(st, World(0, Owner), multiset{})
      && r.exit.Normal? && Live(r.st.heap, Obj(0)) && r.st.heap[0].fields == [Obj(1)] && !Live(r.st.heap, Obj(1))
  {
    var h := [Instance(Owner, [Obj(1)]), Instance(Plain, [])];
    var st := State(h, map[], 0, multiset{Obj(0)}, []);
    DeclCode(IvarRef(0));
    BodyCode([Decl(X, IvarRef(0))], [CDeclare(X, IvarRef(0))]);
    TwoObjects(h, st.out);
    LastFreed(h[0]);
    ExecStep(CDeclare(X, IvarRef(0)), [CRelease(X)], st);
    ExecOne(CRelease(X), st.(env := map[X := Obj(1)]));
  }

  /** { f = [self borrowed]; } : two references to the borrowed object, and a count of one. */
  lemma BorrowedStored()
    ensures
      var h := [Instance(Owner, [Nil]), Instance(Plain, [])];
      var st := State(h, map[], 0, multiset{Obj(0), Obj(1)}, [Lend(Obj(1))]);
      var r := ExecSeq(EmitMethod([], [StoreIvar(0, Borrowed)]), st);
      && Owns(st, World(0, Owner), multiset{})
      && r.exit.Normal? && Obj(1) in r.st.out && r.st.heap == [Instance(Owner, [Obj(1)]), Instance(Plain, [])]
  {
    var h := [Instance(Owner, [Nil]), Instance(Plain, [])];
    var st := State(h, map[], 0, multiset{Obj(0), Obj(1)}, [Lend(Obj(1))]);
    var st1 := st.(env := map[Temp(0) := Obj(1)], choices := []);
    TwoObjects(h, st.out);
    StoreCode();
    assert Exec(CDeclare(Temp(0), Borrowed), st) == Run(Normal, st1);
    ExecStep(CDeclare(Temp(0), Borrowed), [CReleaseIvar(0), CSetIvar(0, Temp(0))], st);
    StoreRun(0, Temp(0), st1, h);
    assert [Nil][0 := Obj(1)] == [Obj(1)];
    assert SetField(h, 0, 0, Obj(1)) == [Instance(Owner, [Obj(1)]), Instance(Plain, [])];
  }

  lemma StoreCode()
    ensures EmitMethod([], [StoreIvar(0, Borrowed)]) ==
            [CDeclare(Temp(0), Borrowed)] + [CReleaseIvar(0), CSetIvar(0, Temp(0))]
  {
    var c := Push(EntryCtx([]), []);
    var code := [CDeclare(Temp(0), Borrowed)] + [CReleaseIvar(0), CSetIvar(0, Temp(0))];
    assert [StoreIvar(0, Borrowed)][..0] == [];
    assert EmitStmt(StoreIvar(0, Borrowed), c).code == code;
    assert EmitBody([StoreIvar(0, Borrowed)], c).code == code;
    assert EmitScope([StoreIvar(0, Borrowed)], c).code == code;
    assert RetainCode([]) + code == code;
  }

  // ---------- objects that are never freed ----------

  /** An object that is alive although nothing refers to it. */
  ghost predicate Leaked(st: State, i: nat) {
    && ActiveAt(st.heap, i) && !st.heap[i].immortal && Obj(i) !in st.out
    && forall p: nat :: ActiveAt(st.heap, p) ==> Obj(i) !in st.heap[p].fields
  }

  lemma OneObject(cls: Class, fields: seq<Ref>)
    requires (cls == Plain && fields == []) || (cls == Owner && fields == [Nil])
    ensures Counted([Instance(cls, fields)], multiset{Obj(0)} + multiset{})
  {
    var h := [Instance(cls, fields)];
    forall i: nat ensures CountedAt(h, multiset{Obj(0)} + multiset{}, NoHole, i) {
      assert RefsUpTo(h, 1, NoHole, Obj(i)) == CellRefs(h, 0, NoHole)[Obj(i)];
    }
  }

  const Sync1 := SyncVar(1)

  lemma SyncCode()
    ensures EmitMethod([], [Sync(Fresh, [])]) == [CBlock([CLock(Sync1, Fresh)] + [CRelease(Sync1)])]
  {
    var c := Push(EntryCtx([]), []);
    var c1 := SyncCtx(c);
    assert c1.frames == [[], [Sync1]];
    assert ReleaseCode([Sync1], {}) == [CRelease(Sync1)] by {
      assert [Sync1][..0] == [];
    }
    assert EmitScope([], c1) == Emitted([CRelease(Sync1)], Pop(c1));
    assert Pop(c1).frames == [[]];
    assert EmitBody([Sync(Fresh, [])], c).code == [CBlock([CLock(Sync1, Fresh)] + [CRelease(Sync1)])] by {
      assert [Sync(Fresh, [])][..0] == [];
    }
    assert RetainCode([]) == [];
  }

  /** What releasing the lock does: one reference to the guarded object is given up. */
  lemma LockReleased(self: Cell)
    ensures var lock := Cell(SpinLock, 1, [Obj(1)], false, Active);
      Release([self, Instance(Plain, []).(rc := 2), lock], Obj(2)) ==
      Ok([self, Instance(Plain, []), lock.(rc := 0, status := Freed)])
  {
    var lock := Cell(SpinLock, 1, [Obj(1)], false, Active);
    var h := [self, Instance(Plain, []).(rc := 2), lock.(rc := 0, status := Deallocating)];
    var h1 := [self, Instance(Plain, []), lock.(rc := 0, status := Deallocating)];
    assert Release(h, Obj(1)) == Ok(h1) by {
      assert h[1 := Instance(Plain, [])] == h1;
    }
    RunOwn(h, 2, SpinLock, 0, 0, h1);
    RunFree(h1, 2, SpinLock, 0);
    assert h1[2 := lock.(rc := 0, status := Freed)] == [self, Instance(Plain, []), lock.(rc := 0, status := Freed)];
    assert [self, Instance(Plain, []).(rc := 2), lock][2 := h[2]] == h;
  }

  /** @synchronized ([T make]) { } : the created object is never freed. */
  lemma FreshLocked()
    ensures
      var st := State([Instance(Plain, [])], map[], 0, multiset{Obj(0)}, [NewObject(Plain)]);
      var r := ExecSeq(EmitMethod([], [Sync(Fresh, [])]), st);
      Owns(st, World(0, Plain), multiset{}) && r.exit.Normal? && Leaked(r.st, 1)
  {
    OneObject(Plain, []);
    SyncCode();
    FreshRun(State([Instance(Plain, [])], map[], 0, multiset{Obj(0)}, [NewObject(Plain)]));
  }

  lemma FreshRun(st: State)
    requires st == State([Instance(Plain, [])], map[], 0, multiset{Obj(0)}, [NewObject(Plain)])
    ensures var r := ExecSeq([CBlock([CLock(Sync1, Fresh)] + [CRelease(Sync1)])], st);
      r.exit.Normal? && Leaked(r.st, 1)
  {
    var self := Instance(Plain, []);
    var lock := Cell(SpinLock, 1, [Obj(1)], false, Active);
    var st1 := State([self, self.(rc := 2), lock], map[Sync1 := Obj(2)], 0, st.out, []);
    LockTaken(st, st1);
    LockReleased(self);
    LockedRun(st, st1, [self, self, lock.(rc := 0, status := Freed)]);
  }

  lemma LockedRun(st: State, st1: State, h: Heap)
    requires Exec(CLock(Sync1, Fresh), st) == Run(Normal, st1)
    requires Sync1 in st1.env && Release(st1.heap, st1.env[Sync1]) == Ok(h)
    ensures ExecSeq([CBlock([CLock(Sync1, Fresh)] + [CRelease(Sync1)])], st) == Run(Normal, st1.(heap := h))
  {
    ExecOne(CBlock([CLock(Sync1, Fresh)] + [CRelease(Sync1)]), st);
    ExecStep(CLock(Sync1, Fresh), [CRelease(Sync1)], st);
    ExecOne(CRelease(Sync1), st1);
  }

  lemma LockTaken(st: State, st1: State)
    requires st == State([Instance(Plain, [])], map[], 0, multiset{Obj(0)}, [NewObject(Plain)])
    requires st1 == State([Instance(Plain, []), Instance(Plain, []).(rc := 2),
                           Cell(SpinLock, 1, [Obj(1)], false, Active)],
                          map[Sync1 := Obj(2)], 0, st.out, [])
    ensures Exec(CLock(Sync1, Fresh), st) == Run(Normal, st1)
  {
    assert NewCell(Plain) == Instance(Plain, []);
    var h := [Instance(Plain, []), Instance(Plain, [])];
    assert st.heap + [NewCell(Plain)] == h;
    assert Retain(h, Obj(1)) == Ok([Instance(Plain, []), Instance(Plain, []).(rc := 2)]);
  }

  /** { { T x = [T make]; f = x; } T x = [T make]; } where the first call returns nil: the
      object of the second is never freed. */
  lemma MovedRedeclared()
    ensures
      var body := [Block([Decl(X, Fresh), StoreIvar(0, VarRef(X))]), Decl(X, Fresh)];
      var st := State([Instance(Owner, [Nil])], map[], 0, multiset{Obj(0)}, [OwnNil, NewObject(Plain)]);
      var r := ExecSeq(EmitMethod([], body), st);
      Owns(st, World(0, Owner), multiset{}) && r.exit.Normal? && Leaked(r.st, 1)
  {
    var self := Instance(Owner, [Nil]);
    var st := State([self], map[], 0, multiset{Obj(0)}, [OwnNil, NewObject(Plain)]);
    var st1 := st.(env := map[X := Nil], choices := [NewObject(Plain)]);
    var st2 := State([self, Instance(Plain, [])], map[X := Obj(1)], 0, st.out, []);
    OneObject(Owner, [Nil]);
    RedeclareCode();
    MovedRun(st, st1);
    assert NewCell(Plain) == Instance(Plain, []);
    ExecStep(CBlock(MoveCode), [CDeclare(X, Fresh)], st);
    ExecOne(CDeclare(X, Fresh), st1);
    assert Exec(CDeclare(X, Fresh), st1) == Run(Normal, st2);
  }

  const MoveCode := [CDeclare(X, Fresh), CReleaseIvar(0), CSetIvar(0, X)]

  lemma MovedRun(st: State, st1: State)
    requires st == State([Instance(Owner, [Nil])], map[], 0, multiset{Obj(0)}, [OwnNil, NewObject(Plain)])
    requires st1 == st.(env := map[X := Nil], choices := [NewObject(Plain)])
    ensures Exec(CBlock(MoveCode), st) == Run(Normal, st1)
  {
    assert [Nil][0 := Nil] == [Nil] && SetField(st.heap, 0, 0, Nil)[0] == st.heap[0];
    assert SetField(st.heap, 0, 0, Nil) == st.heap;
    assert Exec(CDeclare(X, Fresh), st) == Run(Normal, st1);
    assert MoveCode == [CDeclare(X, Fresh)] + ([CReleaseIvar(0)] + [CSetIvar(0, X)]);
    ExecStep(CDeclare(X, Fresh), [CReleaseIvar(0)] + [CSetIvar(0, X)], st);
    ExecStep(CReleaseIvar(0), [CSetIvar(0, X)], st1);
    ExecOne(CSetIvar(0, X), st1);
  }

  lemma RedeclareCode()
    ensures EmitMethod([], [Block([Decl(X, Fresh), StoreIvar(0, VarRef(X))]), Decl(X, Fresh)]) ==
            [CBlock(MoveCode)] + [CDeclare(X, Fresh)]
  {
    var c := Push(EntryCtx([]), []);
    var move := [Decl(X, Fresh), StoreIvar(0, VarRef(X))];
    var moved := c.(consumed := {X});
    BlockCode(c, moved);
    TwoStatements(Block(move), Decl(X, Fresh), c, Emitted([CBlock(MoveCode)], moved),
                  Emitted([CDeclare(X, Fresh)], Track(moved, X)));
    MovedCode([Block(move), Decl(X, Fresh)], [CBlock(MoveCode)] + [CDeclare(X, Fresh)], Track(moved, X));
  }

  /** A body whose one variable has been moved away. */
  lemma MovedCode(body: seq<Stmt>, code: seq<Code>, c1: Ctx)
    requires body != [] && !body[|body| - 1].Return? && c1.frames == [[X]] && c1.consumed == {X}
    requires EmitBody(body, Push(EntryCtx([]), [])) == Emitted(code, c1)
    ensures EmitMethod([], body) == code
  {
    NothingLeft();
    assert EmitScope(body, Push(EntryCtx([]), [])).code == code + [];
    assert RetainCode([]) + code == code;
  }

  lemma NothingLeft()
    ensures ReleaseCode([X], {X}) == []
  {
    assert [X][..0] == [];
  }

  lemma BlockCode(c: Ctx, moved: Ctx)
    requires c == Push(EntryCtx([]), []) && moved == c.(consumed := {X})
    ensures EmitBody([Block([Decl(X, Fresh), StoreIvar(0, VarRef(X))])], c) == Emitted([CBlock(MoveCode)], moved)
    ensures Track(moved, X).frames == [[X]]
  {
    var move := [Decl(X, Fresh), StoreIvar(0, VarRef(X))];
    var inner := Push(c, []);
    var c1 := inner.(frames := [[], [X]], consumed := {X});
    assert [] + [X] == [X] && inner.frames == [[], []] && [[], []][1 := [X]] == [[], [X]];
    assert Track(moved, X).frames == [[] + [X]];
    DeclIn(inner);
    StoreIn(Track(inner, X));
    TwoStatements(Decl(X, Fresh), StoreIvar(0, VarRef(X)), inner, Emitted([CDeclare(X, Fresh)], Track(inner, X)),
                  Emitted([CReleaseIvar(0), CSetIvar(0, X)], c1));
    assert [CDeclare(X, Fresh)] + [CReleaseIvar(0), CSetIvar(0, X)] == MoveCode;
    ScopeCode(move, inner, c1, moved);
    assert RetainCode([]) + MoveCode == MoveCode;
    assert EmitCompound(move, [], c) == Emitted(MoveCode, moved);
    assert [Block(move)][..0] == [] && EmitBody([], c) == Emitted([], c);
    assert [] + [CBlock(MoveCode)] == [CBlock(MoveCode)];
  }

  lemma ScopeCode(move: seq<Stmt>, inner: Ctx, c1: Ctx, moved: Ctx)
    requires move != [] && !move[|move| - 1].Return? && EmitBody(move, inner) == Emitted(MoveCode, c1)
    requires c1.frames == [[], [X]] && c1.consumed == {X} && moved == c1.(frames := [[]])
    ensures EmitScope(move, inner) == Emitted(MoveCode, moved)
  {
    NothingLeft();
    assert [[], [X]][..1] == [[]];
    assert MoveCode + [] == MoveCode;
  }

  lemma DeclIn(c: Ctx)
    ensures EmitBody([Decl(X, Fresh)], c) == Emitted([CDeclare(X, Fresh)], Track(c, X))
  {
    assert [Decl(X, Fresh)][..0] == [];
  }

  lemma StoreIn(c: Ctx)
    requires c.frames == [[], [X]] && c.consumed == {} && c.params == {}
    ensures EmitStmt(StoreIvar(0, VarRef(X)), c) ==
            Emitted([CReleaseIvar(0), CSetIvar(0, X)], c.(consumed := {X}))
  {
    assert X in Flatten(c.frames);
    assert c.consumed + {X} == {X};
    assert [] + [CReleaseIvar(0), CSetIvar(0, X)] == [CReleaseIvar(0), CSetIvar(0, X)];
  }

  /** { T x = [T make]; f = x; x = nil; } : the object is freed while the ivar f still refers
      to it. */
  lemma MovedReassigned()
    ensures
      var body := [Decl(X, Fresh), StoreIvar(0, VarRef(X)), Assign(X, NilExpr)];
      var st := State([Instance(Owner, [Nil])], map[], 0, multiset{Obj(0)}, [NewObject(Plain)]);
      var r := ExecSeq(EmitMethod([], body), st);
      && Owns(st, World(0, Owner), multiset{})
      && r.exit.Normal? && Live(r.st.heap, Obj(0)) && r.st.heap[0].fields == [Obj(1)] && !Live(r.st.heap, Obj(1))
  {
    var st := State([Instance(Owner, [Nil])], map[], 0, multiset{Obj(0)}, [NewObject(Plain)]);
    OneObject(Owner, [Nil]);
    ClearedCode();
    MovedObject(st);
    var st1 := State([Instance(Owner, [Obj(1)]), Instance(Plain, [])], map[X := Obj(1)], 0, multiset{Obj(0)}, []);
    LastFreed(Instance(Owner, [Obj(1)]));
    ClearedRun(X, st1, [Instance(Owner, [Obj(1)]), Instance(Plain, []).(rc := 0, status := Freed)]);
    ExecAppend(MoveCode, [CRelease(X), CAssign(X, NilExpr), CRelease(X)], st);
  }

  /** The created object goes into the ivar. */
  lemma MovedObject(st: State)
    requires st == State([Instance(Owner, [Nil])], map[], 0, multiset{Obj(0)}, [NewObject(Plain)])
    ensures ExecSeq(MoveCode, st) ==
            Run(Normal, State([Instance(Owner, [Obj(1)]), Instance(Plain, [])], map[X := Obj(1)], 0, st.out, []))
  {
    var h := [Instance(Owner, [Nil]), Instance(Plain, [])];
    var st1 := State(h, map[X := Obj(1)], 0, st.out, []);
    assert NewCell(Plain) == Instance(Plain, []) && st.heap + [NewCell(Plain)] == h;
    assert Exec(CDeclare(X, Fresh), st) == Run(Normal, st1);
    assert MoveCode == [CDeclare(X, Fresh)] + [CReleaseIvar(0), CSetIvar(0, X)];
    ExecStep(CDeclare(X, Fresh), [CReleaseIvar(0), CSetIvar(0, X)], st);
    StoreRun(0, X, st1, h);
    assert [Nil][0 := Obj(1)] == [Obj(1)];
    assert SetField(h, 0, 0, Obj(1)) == [Instance(Owner, [Obj(1)]), Instance(Plain, [])];
  }

  lemma ClearedRun(x: Name, st: State, h: Heap)
    requires x in st.env && Release(st.heap, st.env[x]) == Ok(h)
    ensures ExecSeq([CRelease(x), CAssign(x, NilExpr), CRelease(x)], st) ==
            Run(Normal, st.(heap := h, env := st.env[x := Nil]))
  {
    var st2 := st.(heap := h, env := st.env[x := Nil]);
    NilReleased(x, st2);
    ReleaseBind(x, NilExpr, Nil, st);
    ExecOne(CRelease(x), st2);
    ExecAppend([CRelease(x)] + [CAssign(x, NilExpr)], [CRelease(x)], st);
    assert [CRelease(x)] + [CAssign(x, NilExpr)] + [CRelease(x)] == [CRelease(x), CAssign(x, NilExpr), CRelease(x)];
  }

  lemma NilReleased(x: Name, st: State)
    requires x in st.env && st.env[x].Nil?
    ensures Exec(CRelease(x), st) == Run(Normal, st)
  {
  }

  lemma ClearedCode()
    ensures EmitMethod([], [Decl(X, Fresh), StoreIvar(0, VarRef(X)), Assign(X, NilExpr)]) ==
            MoveCode + [CRelease(X), CAssign(X, NilExpr), CRelease(X)]
  {
    var c := Push(EntryCtx([]), []);
    var c1 := Track(c, X);
    var move := [Decl(X, Fresh), StoreIvar(0, VarRef(X))];
    var body := move + [Assign(X, NilExpr)];
    assert c1.frames == [[] + [X]] && [] + [X] == [X];
    DeclIn(c);
    MoveOut(c1);
    TwoStatements(Decl(X, Fresh), StoreIvar(0, VarRef(X)), c, Emitted([CDeclare(X, Fresh)], c1),
                  Emitted([CReleaseIvar(0), CSetIvar(0, X)], c1.(consumed := {X})));
    assert [CDeclare(X, Fresh)] + [CReleaseIvar(0), CSetIvar(0, X)] == MoveCode;
    assert body[..2] == move && EmitBody(move, c) == Emitted(MoveCode, c1.(consumed := {X}));
    ClearIn(c1.(consumed := {X}));
    assert EmitBody(body, c) == Emitted(MoveCode + [CRelease(X), CAssign(X, NilExpr)], c1);
    BodyCode(body, MoveCode + [CRelease(X), CAssign(X, NilExpr)]);
    assert body == [Decl(X, Fresh), StoreIvar(0, VarRef(X)), Assign(X, NilExpr)];
    assert MoveCode + [CRelease(X), CAssign(X, NilExpr)] + [CRelease(X)] ==
           MoveCode + [CRelease(X), CAssign(X, NilExpr), CRelease(X)];
  }

  lemma MoveOut(c: Ctx)
    requires c.frames == [[X]] && c.consumed == {} && c.params == {}
    ensures EmitStmt(StoreIvar(0, VarRef(X)), c) ==
            Emitted([CReleaseIvar(0), CSetIvar(0, X)], c.(consumed := {X}))
  {
    assert [[X]][..0] == [] && [] + [X] == [X];
    assert c.consumed + {X} == {X};
    assert [] + [CReleaseIvar(0), CSetIvar(0, X)] == [CReleaseIvar(0), CSetIvar(0, X)];
  }

  lemma ClearIn(c: Ctx)
    requires c.frames == [[X]] && c.consumed == {X}
    ensures EmitStmt(Assign(X, NilExpr), c) == Emitted([CRelease(X), CAssign(X, NilExpr)], c.(consumed := {}))
  {
    assert [[X]][..0] == [] && [] + [X] == [X];
    assert {X} - {X} == {};
    assert [] + [CRelease(X), CAssign(X, NilExpr)] == [CRelease(X), CAssign(X, NilExpr)];
  }
}
