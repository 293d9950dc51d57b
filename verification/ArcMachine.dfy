/**
 How the emitted C runs: an interpreter over the object heap.

 Everything the model does not decide (conditions, what a call does and returns) is read
 from a list of choices, so quantifying over the list quantifies over all paths.  A run
 whose list is used up is Cut: it stands for the part of a longer run seen so far.
 */
module ArcMachine {
  import opened Wrappers
  import opened ObjectHeap
  import opened Cascade
  import opened ArcSyntax

  /** What the code that a method calls may do to the heap, one deed at a time: whatever
      is written with references of its own. */
  datatype Deed =
    | Keep(r: Ref)                          // retain an object
    | Drop(r: Ref)                          // release a reference
    | Put(id: nat, slot: nat, r: Ref)       // exchange a reference for the content of an ivar
    | Make(cls: Class)                      // create an instance

  datatype Choice =
    | Act(deed: Deed)           // a callee changes the heap
    | Done                      // a call without a result of interest returns
    | Branch(taken: bool)       // a condition has this value
    | NewObject(cls: Class)     // an owning call creates an instance
    | OwnNil                    // an owning call returns nil
    | OwnShared(id: nat)        // an owning call returns a retained existing object
    | Lend(r: Ref)              // a borrowing call returns nil or a live object

  /** out holds the references of the callers, the callees and everybody else. */
  datatype State = State(heap: Heap, env: map<Name, Ref>, self: nat, out: multiset<Ref>, choices: seq<Choice>)

  datatype Exit = Normal | Broke | Continued | Returned(e: Option<Expr>, v: Ref) | Cut | Faulted

  datatype Run = Run(exit: Exit, st: State)

  datatype Value = Val(v: Ref, st: State) | NoVal(exit: Exit)

  predicate Live(h: Heap, r: Ref) {
    r.Obj? ==> r.id < |h| && h[r.id].status.Active?
  }

  // ---------- what callees do ----------

  /** Callees give up only references from out, and leave the receiver one of its own. */
  predicate Allowed(d: Deed, st: State) {
    match d
    case Keep(r) => Live(st.heap, r)
    case Drop(r) => r in st.out && Obj(st.self) in st.out - multiset{r}
    case Put(id, slot, r) =>
      && Live(st.heap, Obj(id)) && slot < |st.heap[id].fields|
      && (r.Nil? || r in st.out) && Obj(st.self) in st.out - multiset{r}
    case Make(cls) => true
  }

  function SetField(h: Heap, id: nat, slot: nat, r: Ref): Heap
    requires id < |h| && slot < |h[id].fields|
  {
    h[id := h[id].(fields := h[id].fields[slot := r])]
  }

  function Perform(d: Deed, st: State): (r: Run)
    ensures r.st == st.(heap := r.st.heap, out := r.st.out)
    ensures r.exit.Normal? || r.exit.Cut? || r.exit.Faulted?
  {
    if !Allowed(d, st) then Run(Cut, st)
    else
      match d
      case Keep(r) => WithHeap(st.(out := st.out + multiset{r}), Retain(st.heap, r))
      case Drop(r) => WithHeap(st.(out := st.out - multiset{r}), Release(st.heap, r))
      case Put(id, slot, r) =>
        Run(Normal, st.(heap := SetField(st.heap, id, slot, r),
                        out := st.out - multiset{r} + multiset{st.heap[id].fields[slot]}))
      case Make(cls) =>
        Run(Normal, st.(heap := st.heap + [NewCell(cls)], out := st.out + multiset{Obj(|st.heap|)}))
  }

  datatype Answer = Answer(c: Choice, st: State) | NoAnswer(exit: Exit)

  /** The outcome of a call or a condition, after all that its evaluation does. */
  function Ask(st: State): (a: Answer)
    ensures a.Answer? ==> |a.st.choices| < |st.choices| && a.st.env == st.env && a.st.self == st.self
    ensures a.NoAnswer? ==> a.exit.Cut? || a.exit.Faulted?
    decreases |st.choices|
  {
    if st.choices == [] then NoAnswer(Cut)
    else
      var st1 := st.(choices := st.choices[1..]);
      match st.choices[0]
      case Act(d) =>
        var r := Perform(d, st1);
        if r.exit.Normal? then Ask(r.st) else NoAnswer(r.exit)
      case c => Answer(c, st1)
  }

  // ---------- expressions ----------

  /** An owning call that answers c. */
  function EvalFresh(c: Choice, st: State): Value {
    match c
    case NewObject(cls) => Val(Obj(|st.heap|), st.(heap := st.heap + [NewCell(cls)]))
    case OwnNil => Val(Nil, st)
    case OwnShared(id) =>
      if !Live(st.heap, Obj(id)) then NoVal(Cut)
      else
        (match Retain(st.heap, Obj(id))
         case Ok(h) => Val(Obj(id), st.(heap := h))
         case Fault => NoVal(Faulted))
    case _ => NoVal(Cut)
  }

  /** A borrowing call that answers c. */
  function EvalBorrowed(c: Choice, st: State): Value {
    if c.Lend? && Live(st.heap, c.r) then Val(c.r, st) else NoVal(Cut)
  }

  function Eval(e: Expr, st: State): (r: Value)
    ensures r.Val? ==> |r.st.choices| <= |st.choices| && r.st.env == st.env && r.st.self == st.self
    ensures r.NoVal? ==> r.exit.Cut? || r.exit.Faulted?
  {
    match e
    case NilExpr => Val(Nil, st)
    case SelfRef => Val(Obj(st.self), st)
    case VarRef(x) => if x in st.env then Val(st.env[x], st) else NoVal(Faulted)
    case IvarRef(slot) =>
      if ReadSelf(st) && slot < |st.heap[st.self].fields| then Val(st.heap[st.self].fields[slot], st)
      else NoVal(Faulted)
    case _ =>
      match Ask(st)
      case NoAnswer(exit) => NoVal(exit)
      case Answer(c, st1) => if e.Fresh? then EvalFresh(c, st1) else EvalBorrowed(c, st1)
  }

  predicate ReadSelf(st: State) {
    st.self < |st.heap| && !st.heap[st.self].status.Freed?
  }

  function WithHeap(st: State, res: Outcome): Run {
    match res
    case Ok(h) => Run(Normal, st.(heap := h))
    case Fault => Run(Faulted, st)
  }

  // ---------- statements ----------

  const SpinLock := Root("OZSpinLock", [Ivar("_obj", "OZObject")])

  /** OZSpinLock_initWithObject on a new lock: the lock retains the object it guards. */
  function Lock(x: Name, v: Ref, st: State): Run {
    match Retain(st.heap, v)
    case Fault => Run(Faulted, st)
    case Ok(h) =>
      Run(Normal, st.(heap := h + [Cell(SpinLock, 1, [v], false, Active)], env := st.env[x := Obj(|h|)]))
  }

  /** The value of a condition, after the calls in it. */
  function Condition(st: State): (a: Answer)
    ensures a.Answer? ==> a.c.Branch? && a == Ask(st)
    ensures a.NoAnswer? ==> a.exit.Cut? || (a.exit.Faulted? && a == Ask(st))
  {
    var a := Ask(st);
    if a.Answer? && !a.c.Branch? then NoAnswer(Cut) else a
  }

  function Exec(c: Code, st: State): (r: Run)
    ensures |r.st.choices| <= |st.choices|
    decreases |st.choices|, c, 1
  {
    match c
    case CBlock(body) => ExecSeq(body, st)
    case CRetain(x) => if x in st.env then WithHeap(st, Retain(st.heap, st.env[x])) else Run(Faulted, st)
    case CRelease(x) => if x in st.env then WithHeap(st, Release(st.heap, st.env[x])) else Run(Faulted, st)
    case CReleaseIvar(slot) =>
      if ReadSelf(st) && slot < |st.heap[st.self].fields|
      then WithHeap(st, Release(st.heap, st.heap[st.self].fields[slot]))
      else Run(Faulted, st)
    case CSetIvar(slot, x) =>
      if ReadSelf(st) && slot < |st.heap[st.self].fields| && x in st.env
      then Run(Normal, st.(heap := SetField(st.heap, st.self, slot, st.env[x])))
      else Run(Faulted, st)
    case CDeclare(x, e) =>
      (match Eval(e, st)
       case NoVal(exit) => Run(exit, st)
       case Val(v, st1) => Run(Normal, st1.(env := st1.env[x := v])))
    case CAssign(x, e) =>
      (match Eval(e, st)
       case NoVal(exit) => Run(exit, st)
       case Val(v, st1) => Run(Normal, st1.(env := st1.env[x := v])))
    case CLock(x, e) =>
      (match Eval(e, st)
       case NoVal(exit) => Run(exit, st)
       case Val(v, st1) => Lock(x, v, st1))
    case CIf(thn, els) =>
      var a := Condition(st);
      if a.NoAnswer? then Run(a.exit, st)
      else if a.c.taken then ExecSeq(thn, a.st) else ExecSeq(els, a.st)
    case CWhile(body) =>
      var a := Condition(st);
      if a.NoAnswer? then Run(a.exit, st)
      else if !a.c.taken then Run(Normal, a.st)
      else
        var r := ExecSeq(body, a.st);
        if r.exit.Broke? then Run(Normal, r.st)
        else if r.exit.Normal? || r.exit.Continued? then Exec(c, r.st)
        else r
    case CDo(body) =>
      var r := ExecSeq(body, st);
      if r.exit.Broke? then Run(Normal, r.st)
      else if r.exit.Normal? || r.exit.Continued? then
        var a := Condition(r.st);
        if a.NoAnswer? then Run(a.exit, r.st)
        else if !a.c.taken then Run(Normal, a.st) else Exec(c, a.st)
      else r
    case CBreak => Run(Broke, st)
    case CContinue => Run(Continued, st)
    case CReturn(e) =>
      if e.None? then Run(Returned(e, Nil), st)
      else
        (match Eval(e.value, st)
         case NoVal(exit) => Run(exit, st)
         case Val(v, st1) => Run(Returned(e, v), st1))
    case COther =>
      (match Ask(st)
       case NoAnswer(exit) => Run(exit, st)
       case Answer(c, st1) => Run(if c.Done? then Normal else Cut, st1))
  }

  function ExecSeq(cs: seq<Code>, st: State): (r: Run)
    ensures |r.st.choices| <= |st.choices|
    decreases |st.choices|, cs, 0
  {
    if cs == [] then Run(Normal, st)
    else
      var r := Exec(cs[0], st);
      if r.exit.Normal? then ExecSeq(cs[1..], r.st) else r
  }

  function Then(r: Run, cs: seq<Code>): Run {
    if r.exit.Normal? then ExecSeq(cs, r.st) else r
  }

  lemma {:induction false} ExecAppend(a: seq<Code>, b: seq<Code>, st: State)
    ensures ExecSeq(a + b, st) == Then(ExecSeq(a, st), b)
    decreases a
  {
    if a == [] {
      assert a + b == b;
    } else {
      assert (a + b)[0] == a[0] && (a + b)[1..] == a[1..] + b;
      var r := Exec(a[0], st);
      if r.exit.Normal? {
        ExecAppend(a[1..], b, r.st);
      }
    }
  }

  lemma ExecOne(c: Code, st: State)
    ensures ExecSeq([c], st) == Exec(c, st)
  {
    var r := Exec(c, st);
    assert [c][1..] == [];
  }

  lemma ExecStep(c: Code, cs: seq<Code>, st: State)
    ensures ExecSeq([c] + cs, st) == Then(Exec(c, st), cs)
  {
    ExecOne(c, st);
    ExecAppend([c], cs, st);
  }
}
