/**
 Method bodies as the transpiler sees them, and the C it emits for them.  Only what
 matters to reference counting is kept: object variables, strong ivars of self,
 scopes, loops and exits.  Conditions are opaque.
 */
module ArcSyntax {
  import opened Wrappers

  /** Source locals and parameters, the lock variables of @synchronized, emitted temporaries. */
  datatype Name = Local(name: string) | SyncVar(k: nat) | Temp(k: nat)

  /** Object expressions by the reference they produce: Fresh is an owning (+1) call or
      literal, Borrowed a call that returns an object it does not give away. */
  datatype Expr = NilExpr | Fresh | Borrowed | SelfRef | VarRef(x: Name) | IvarRef(slot: nat)

  datatype Stmt =
    | Decl(x: Name, init: Expr)
    | Assign(x: Name, rhs: Expr)
    | StoreIvar(slot: nat, rhs: Expr)
    | Block(body: seq<Stmt>)
    | Sync(lock: Expr, body: seq<Stmt>)
    | If(thn: Stmt, els: Option<Stmt>)
    | While(loop: Stmt)
    | DoWhile(loop: Stmt)
    | Break
    | Continue
    | Return(value: Option<Expr>)
    | Other

  datatype Code =
    | CBlock(body: seq<Code>)
    | CRetain(x: Name)
    | CRelease(x: Name)
    | CReleaseIvar(slot: nat)
    | CSetIvar(slot: nat, x: Name)
    | CDeclare(x: Name, e: Expr)
    | CAssign(x: Name, e: Expr)
    | CLock(x: Name, e: Expr)
    | CIf(thn: seq<Code>, els: seq<Code>)
    | CWhile(body: seq<Code>)
    | CDo(body: seq<Code>)
    | CBreak
    | CContinue
    | CReturn(value: Option<Expr>)
    | COther

  /** The tracked variables of all scope frames, outermost frame first. */
  function Flatten(frames: seq<seq<Name>>): seq<Name> {
    if frames == [] then [] else Flatten(frames[..|frames| - 1]) + frames[|frames| - 1]
  }
}
