/**
 What a method body means, without reference counting: the statements of the source run on
 objects that have ivars and no counts.  Conditions and calls read the same list of choices
 as the emitted C.
 */
module ArcMeaning {
  import opened Wrappers
  import opened ObjectHeap
  import opened ArcSyntax
  import opened ArcMachine

  datatype Thing = Thing(cls: Class, fields: seq<Ref>)

  datatype Scene = Scene(things: seq<Thing>, env: map<Name, Ref>, self: nat, choices: seq<Choice>)

  datatype Ended = Ended(exit: Exit, sc: Scene)

  datatype Meant = Meant(v: Ref, sc: Scene) | NotMeant(exit: Exit)

  datatype Reply = Reply(c: Choice, sc: Scene) | NoReply

  function NewThing(cls: Class): Thing {
    Thing(cls, seq(|Slots(cls)|, _ => Nil))
  }

  predicate HasField(sc: Scene, id: nat, slot: nat) {
    id < |sc.things| && slot < |sc.things[id].fields|
  }

  function WithField(sc: Scene, id: nat, slot: nat, v: Ref): Scene
    requires HasField(sc, id, slot)
  {
    sc.(things := sc.things[id := sc.things[id].(fields := sc.things[id].fields[slot := v])])
  }

  /** What a callee does, apart from counting. */
  function DeedMeans(d: Deed, sc: Scene): (r: Option<Scene>)
    ensures r.Some? ==> r.value == sc.(things := r.value.things)
  {
    match d
    case Keep(_) => Some(sc)
    case Drop(_) => Some(sc)
    case Put(id, slot, r) => if HasField(sc, id, slot) then Some(WithField(sc, id, slot, r)) else None
    case Make(cls) => Some(sc.(things := sc.things + [NewThing(cls)]))
  }

  function Hear(sc: Scene): (a: Reply)
    ensures a.Reply? ==> |a.sc.choices| < |sc.choices| && a.sc.env == sc.env && a.sc.self == sc.self
    decreases |sc.choices|
  {
    if sc.choices == [] then NoReply
    else
      var sc1 := sc.(choices := sc.choices[1..]);
      match sc.choices[0]
      case Act(d) =>
        var next := DeedMeans(d, sc1);
        if next.None? then NoReply else Hear(next.value)
      case c => Reply(c, sc1)
  }

  function FreshMeans(c: Choice, sc: Scene): Meant {
    match c
    case NewObject(cls) => Meant(Obj(|sc.things|), sc.(things := sc.things + [NewThing(cls)]))
    case OwnNil => Meant(Nil, sc)
    case OwnShared(id) => Meant(Obj(id), sc)
    case _ => NotMeant(Cut)
  }

  function ExprMeans(e: Expr, sc: Scene): (m: Meant)
    ensures m.Meant? ==> |m.sc.choices| <= |sc.choices| && m.sc.env == sc.env && m.sc.self == sc.self
  {
    match e
    case NilExpr => Meant(Nil, sc)
    case SelfRef => Meant(Obj(sc.self), sc)
    case VarRef(x) => if x in sc.env then Meant(sc.env[x], sc) else NotMeant(Faulted)
    case IvarRef(slot) =>
      if HasField(sc, sc.self, slot) then Meant(sc.things[sc.self].fields[slot], sc) else NotMeant(Faulted)
    case Fresh =>
      var a := Hear(sc);
      if a.NoReply? then NotMeant(Cut) else FreshMeans(a.c, a.sc)
    case Borrowed =>
      var a := Hear(sc);
      if a.Reply? && a.c.Lend? then Meant(a.c.r, a.sc) else NotMeant(Cut)
  }

  /** A declaration and an assignment give a variable a value. */
  function BindMeans(x: Name, e: Expr, sc: Scene): Ended {
    match ExprMeans(e, sc)
    case NotMeant(exit) => Ended(exit, sc)
    case Meant(v, sc1) => Ended(Normal, sc1.(env := sc1.env[x := v]))
  }

  function StoreMeans(slot: nat, e: Expr, sc: Scene): Ended {
    match ExprMeans(e, sc)
    case NotMeant(exit) => Ended(exit, sc)
    case Meant(v, sc1) => FieldSet(sc1, slot, v)
  }

  function FieldSet(sc: Scene, slot: nat, v: Ref): Ended {
    if HasField(sc, sc.self, slot) then Ended(Normal, WithField(sc, sc.self, slot, v)) else Ended(Faulted, sc)
  }

  function ReturnMeans(e: Option<Expr>, sc: Scene): Ended {
    if e.None? then Ended(Returned(e, Nil), sc)
    else
      match ExprMeans(e.value, sc)
      case NotMeant(exit) => Ended(exit, sc)
      case Meant(v, sc1) => Ended(Returned(e, v), sc1)
  }

  /** The value of a condition, if it has one. */
  function Decide(sc: Scene): (a: Reply)
    ensures a.Reply? ==> a.c.Branch? && |a.sc.choices| < |sc.choices|
  {
    var a := Hear(sc);
    if a.Reply? && a.c.Branch? then a else NoReply
  }

  function Mean(s: Stmt, sc: Scene): (r: Ended)
    ensures |r.sc.choices| <= |sc.choices|
    decreases |sc.choices|, s, 0
  {
    match s
    case Decl(x, init) => BindMeans(x, init, sc)
    case Assign(x, rhs) => BindMeans(x, rhs, sc)
    case StoreIvar(slot, rhs) => StoreMeans(slot, rhs, sc)
    case Block(body) => MeanAll(body, sc)
    case Sync(lock, body) =>
      (match ExprMeans(lock, sc)
       case NotMeant(exit) => Ended(exit, sc)
       case Meant(v, sc1) => MeanAll(body, sc1.(things := sc1.things + [Thing(SpinLock, [v])])))
    case If(thn, els) =>
      var a := Decide(sc);
      if a.NoReply? then Ended(Cut, sc)
      else if a.c.taken then Mean(thn, a.sc)
      else if els.Some? then Mean(els.value, a.sc)
      else Ended(Normal, a.sc)
    case While(loop) =>
      var a := Decide(sc);
      if a.NoReply? then Ended(Cut, sc)
      else if !a.c.taken then Ended(Normal, a.sc)
      else
        var r := Mean(loop, a.sc);
        if r.exit.Broke? then Ended(Normal, r.sc)
        else if r.exit.Normal? || r.exit.Continued? then Mean(s, r.sc)
        else r
    case DoWhile(loop) =>
      var r := Mean(loop, sc);
      if r.exit.Broke? then Ended(Normal, r.sc)
      else if r.exit.Normal? || r.exit.Continued? then
        var a := Decide(r.sc);
        if a.NoReply? then Ended(Cut, r.sc)
        else if !a.c.taken then Ended(Normal, a.sc)
        else Mean(s, a.sc)
      else r
    case Break => Ended(Broke, sc)
    case Continue => Ended(Continued, sc)
    case Return(e) => ReturnMeans(e, sc)
    case Other =>
      var a := Hear(sc);
      if a.Reply? && a.c.Done? then Ended(Normal, a.sc) else Ended(Cut, sc)
  }

  /** The statements of a body, up to one that leaves it. */
  function MeanAll(body: seq<Stmt>, sc: Scene): (r: Ended)
    ensures |r.sc.choices| <= |sc.choices|
    decreases |sc.choices|, body, 1
  {
    if body == [] then Ended(Normal, sc)
    else
      var r := MeanAll(body[..|body| - 1], sc);
      if r.exit.Normal? then Mean(body[|body| - 1], r.sc) else r
  }

  // ---------- source statements ----------

  predicate LocalExpr(e: Expr) {
    e.VarRef? ==> e.x.Local?
  }

  /** The statement names only variables of the source. */
  predicate LocalNames(s: Stmt)
    decreases s, 0
  {
    match s
    case Decl(x, init) => x.Local? && LocalExpr(init)
    case Assign(x, rhs) => x.Local? && LocalExpr(rhs)
    case StoreIvar(_, rhs) => LocalExpr(rhs)
    case Block(body) => AllLocal(body)
    case Sync(lock, body) => LocalExpr(lock) && AllLocal(body)
    case If(thn, els) => LocalNames(thn) && (els.Some? ==> LocalNames(els.value))
    case While(loop) => LocalNames(loop)
    case DoWhile(loop) => LocalNames(loop)
    case Return(e) => e.Some? ==> LocalExpr(e.value)
    case _ => true
  }

  predicate AllLocal(body: seq<Stmt>)
    decreases body, 0
  {
    body == [] || (AllLocal(body[..|body| - 1]) && LocalNames(body[|body| - 1]))
  }
}
