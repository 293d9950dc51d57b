/**
 The statement emitters in the form they have in the transpiler: one context object
 that every emitter updates as it goes, and a list of emitted statements per call.
 Each method is proved to write what ArcEmission says and to leave the context as
 ArcEmission says.
 */
module ArcEmitter {
  import opened Wrappers
  import opened ArcSyntax
  import opened ArcEmission

  class Emitter {
    var scopeVars: seq<seq<Name>>
    var consumedVars: set<Name>
    var loopScopeDepth: seq<nat>
    var syncCounter: nat
    var tmpCounter: nat
    const params: set<Name>

    constructor (params: set<Name>)
      ensures State() == Ctx([], {}, [], 0, 0, params)
    {
      this.params := params;
      scopeVars, consumedVars, loopScopeDepth := [], {}, [];
      syncCounter, tmpCounter := 0, 0;
    }

    ghost function State(): Ctx
      reads this
    {
      Ctx(scopeVars, consumedVars, loopScopeDepth, syncCounter, tmpCounter, params)
    }

    /** Writes a release for each name except those in skip. */
    method ReleaseNames(names: seq<Name>, skip: set<Name>) returns (out: seq<Code>)
      ensures out == ReleaseCode(names, skip)
    {
      out := [];
      for i := 0 to |names|
        invariant out == ReleaseCode(names[..i], skip)
      {
        assert names[..i + 1][..i] == names[..i];
        if names[i] !in skip {
          out := out + [CRelease(names[i])];
        }
      }
      assert names[..|names|] == names;
    }

    method EmitScopeReleases() returns (out: seq<Code>)
      ensures out == ScopeReleases(State())
    {
      if scopeVars == [] {
        return [];
      }
      out := ReleaseNames(scopeVars[|scopeVars| - 1], consumedVars);
    }

    method EmitBreakContinueReleases() returns (out: seq<Code>)
      ensures out == LoopReleases(State())
    {
      out := [];
      if loopScopeDepth == [] {
        return;
      }
      var loopDepth := loopScopeDepth[|loopScopeDepth| - 1];
      var i := |scopeVars|;
      assert scopeVars[..i] == scopeVars;
      while i > loopDepth
        invariant 0 <= i <= |scopeVars|
        invariant out + UnwindCode(scopeVars[..i], loopDepth, consumedVars) ==
                  UnwindCode(scopeVars, loopDepth, consumedVars)
      {
        i := i - 1;
        assert scopeVars[..i + 1][..i] == scopeVars[..i];
        var frame := ReleaseNames(scopeVars[i], consumedVars);
        out := out + frame;
      }
    }

    method FlattenScopeVars() returns (names: seq<Name>)
      ensures names == Flatten(scopeVars)
    {
      names := [];
      for i := 0 to |scopeVars|
        invariant names == Flatten(scopeVars[..i])
      {
        assert scopeVars[..i + 1][..i] == scopeVars[..i];
        names := names + scopeVars[i];
      }
      assert scopeVars[..|scopeVars|] == scopeVars;
    }

    method EmitReturnStmt(e: Option<Expr>) returns (out: seq<Code>)
      ensures out == EmitReturn(e, State())
    {
      var names := FlattenScopeVars();
      out := ReleaseNames(names, consumedVars + ReturnedVar(e));
      out := out + [CReturn(e)];
    }

    method IsTracked(x: Name) returns (found: bool)
      ensures found <==> Tracked(State(), x)
    {
      var names := FlattenScopeVars();
      found := x in names;
    }

    method EmitVarDecl(x: Name, init: Expr) returns (out: seq<Code>)
      modifies this
      ensures Emitted(out, State()) == EmitDecl(x, init, old(State()))
    {
      if scopeVars != [] {
        var top := |scopeVars| - 1;
        if x !in scopeVars[top] {
          scopeVars := scopeVars[top := scopeVars[top] + [x]];
        }
      }
      out := [CDeclare(x, init)];
      if IsBorrowed(init) {
        out := out + [CRetain(x)];
      }
    }

    method EmitStrongLocalAssign(x: Name, rhs: Expr) returns (out: seq<Code>)
      modifies this
      ensures Emitted(out, State()) == EmitAssign(x, rhs, old(State()))
    {
      var tracked := IsTracked(x);
      if !tracked {
        return [CAssign(x, rhs)];
      }
      out := [];
      if rhs.VarRef? {
        var fromLocal := IsTracked(rhs.x);
        if fromLocal {
          out := [CRetain(rhs.x)];
        }
      }
      out := out + [CRelease(x), CAssign(x, rhs)];
      if x in consumedVars {
        consumedVars := consumedVars - {x};
      }
      assert old(consumedVars) - {x} == consumedVars;
    }

    method EmitStrongIvarAssign(slot: nat, rhs: Expr) returns (out: seq<Code>)
      modifies this
      ensures Emitted(out, State()) == EmitStoreIvar(slot, rhs, old(State()))
    {
      if rhs.VarRef? {
        out := [];
        if rhs.x in params {
          out := [CRetain(rhs.x)];
        }
        out := out + [CReleaseIvar(slot), CSetIvar(slot, rhs.x)];
        if rhs.x !in params {
          var tracked := IsTracked(rhs.x);
          if tracked {
            consumedVars := consumedVars + {rhs.x};
          }
        }
      } else {
        var tmp := Temp(tmpCounter);
        tmpCounter := tmpCounter + 1;
        out := [CDeclare(tmp, rhs), CReleaseIvar(slot), CSetIvar(slot, tmp)];
      }
    }

    /** The statements of a body, in order. */
    method EmitChildren(children: seq<Stmt>) returns (out: seq<Code>)
      modifies this
      ensures Emitted(out, State()) == EmitBody(children, old(State()))
      decreases children, 0
    {
      out := [];
      for i := 0 to |children|
        invariant Emitted(out, State()) == EmitBody(children[..i], old(State()))
      {
        assert children[..i + 1][..i] == children[..i];
        var code := EmitStatement(children[i]);
        out := out + code;
      }
      assert children[..|children|] == children;
    }

    /** Emits a scope whose frame has been pushed, and pops the frame. */
    method EmitScopeBody(children: seq<Stmt>) returns (out: seq<Code>)
      modifies this
      ensures Emitted(out, State()) == EmitScope(children, old(State()))
      decreases children, 1
    {
      out := EmitChildren(children);
      if !EndsInReturn(children) {
        var releases := EmitScopeReleases();
        out := out + releases;
      }
      if scopeVars != [] {
        scopeVars := scopeVars[..|scopeVars| - 1];
      }
    }

    method EmitCompoundStmt(children: seq<Stmt>, retains: seq<Name>) returns (out: seq<Code>)
      modifies this
      ensures Emitted(out, State()) == EmitCompound(children, retains, old(State()))
      decreases children, 2
    {
      scopeVars := scopeVars + [retains];
      out := [];
      for i := 0 to |retains|
        invariant out == RetainCode(retains[..i])
        invariant State() == Push(old(State()), retains)
      {
        out := out + [CRetain(retains[i])];
      }
      assert retains[..|retains|] == retains;
      var scope := EmitScopeBody(children);
      out := out + scope;
    }

    method EmitSynchronizedStmt(lock: Expr, children: seq<Stmt>) returns (out: seq<Code>)
      modifies this
      ensures Emitted(out, State()) == EmitSync(lock, children, old(State()))
      decreases children, 2
    {
      syncCounter := syncCounter + 1;
      var x := SyncVar(syncCounter);
      scopeVars := scopeVars + [[x]];
      var scope := EmitScopeBody(children);
      out := [CBlock([CLock(x, lock)] + scope)];
    }

    method EmitBranchBody(s: Stmt) returns (out: seq<Code>)
      modifies this
      ensures Emitted(out, State()) == EmitBranch(s, old(State()))
      decreases s, 1
    {
      if s.Block? {
        out := EmitCompoundStmt(s.body, []);
      } else {
        out := EmitStatement(s);
      }
    }

    method EmitLoopBody(s: Stmt) returns (out: seq<Code>)
      modifies this
      ensures Emitted(out, State()) == EmitLoop(s, old(State()))
      decreases s, 2
    {
      loopScopeDepth := loopScopeDepth + [|scopeVars|];
      out := EmitBranchBody(s);
      if loopScopeDepth != [] {
        loopScopeDepth := loopScopeDepth[..|loopScopeDepth| - 1];
      }
    }

    method EmitStatement(s: Stmt) returns (out: seq<Code>)
      modifies this
      ensures Emitted(out, State()) == EmitStmt(s, old(State()))
      decreases s, 0
    {
      match s
      case Decl(x, init) => out := EmitVarDecl(x, init);
      case Assign(x, rhs) => out := EmitStrongLocalAssign(x, rhs);
      case StoreIvar(slot, rhs) => out := EmitStrongIvarAssign(slot, rhs);
      case Block(body) =>
        var inner := EmitCompoundStmt(body, []);
        out := [CBlock(inner)];
      case Sync(lock, body) => out := EmitSynchronizedStmt(lock, body);
      case If(thn, els) =>
        var thnCode := EmitBranchBody(thn);
        var elsCode := [];
        if els.Some? {
          elsCode := EmitBranchBody(els.value);
        }
        out := [CIf(thnCode, elsCode)];
      case While(loop) =>
        var body := EmitLoopBody(loop);
        out := [CWhile(body)];
      case DoWhile(loop) =>
        var body := EmitLoopBody(loop);
        out := [CDo(body)];
      case Break =>
        out := EmitBreakContinueReleases();
        out := out + [CBreak];
      case Continue =>
        out := EmitBreakContinueReleases();
        out := out + [CContinue];
      case Return(e) => out := EmitReturnStmt(e);
      case Other => out := [COther];
    }
  }

  /** Emits a whole method body with a fresh context. */
  method EmitMethodBody(params: seq<Name>, body: seq<Stmt>) returns (out: seq<Code>)
    ensures out == EmitMethod(params, body)
  {
    var emitter := new Emitter(set x | x in params);
    out := emitter.EmitCompoundStmt(body, params);
  }
}
