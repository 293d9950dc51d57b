/**
 The object graph that transpiled programs run on, with the reference counting
 functions that the transpiler emits for the root class and the dealloc chain it
 emits for every class.

 An object is a cell.  Its strong ivars are numbered in the order in which the
 dealloc chain visits them: the ivars of its own class first, then those of the
 superclass, up to the root.
 */
module ObjectHeap {

  // ---------- classes and the dealloc functions emitted for them ----------

  datatype Ivar = Ivar(name: string, target: string)

  /** A class with its superclass chain; own holds the strong object ivars. */
  datatype Class =
    | Root(name: string, own: seq<Ivar>)
    | Sub(name: string, own: seq<Ivar>, parent: Class)

  function Depth(cls: Class): nat {
    if cls.Root? then 0 else 1 + Depth(cls.parent)
  }

  /** Every strong ivar an instance has, own ivars before inherited ones. */
  function Slots(cls: Class): seq<Ivar> {
    if cls.Root? then cls.own else cls.own + Slots(cls.parent)
  }

  datatype DeallocOp = ReleaseOwn(k: nat) | SuperDealloc | DispatchFree

  /** The body of the dealloc function emitted for one class. */
  function EmitDealloc(cls: Class): seq<DeallocOp> {
    seq(|cls.own|, (k: nat) => ReleaseOwn(k)) + [if cls.Root? then DispatchFree else SuperDealloc]
  }

  // ---------- cells ----------

  datatype Ref = Nil | Obj(id: nat)

  datatype Status = Active | Deallocating | Freed

  datatype Cell = Cell(cls: Class, rc: int, fields: seq<Ref>, immortal: bool, status: Status)

  type Heap = seq<Cell>

  /** Ok is an ordinary return; Fault means that freed memory was touched. */
  datatype Outcome = Ok(heap: Heap) | Fault

  ghost predicate ActiveAt(h: Heap, i: nat) {
    i < |h| && h[i].status.Active?
  }

  ghost function ActiveSet(h: Heap): set<nat> {
    set i: nat | i < |h| && h[i].status.Active?
  }

  // ---------- retain, release, dealloc ----------

  function Retain(h: Heap, r: Ref): Outcome {
    if r.Nil? then Ok(h)
    else if r.id >= |h| || h[r.id].status.Freed? then Fault
    else Ok(h[r.id := h[r.id].(rc := h[r.id].rc + 1)])
  }

  /** What one operation may do to the cells it does not free. */
  ghost predicate Evolves(h: Heap, h': Heap) {
    && |h'| == |h|
    && forall i :: 0 <= i < |h| ==>
         && h'[i].cls == h[i].cls && h'[i].immortal == h[i].immortal && h'[i].fields == h[i].fields
         && (h'[i].status.Active? ==> h[i].status.Active?)
  }

  /** The emitted release function of the root class. */
  function Release(h: Heap, r: Ref): (res: Outcome)
    ensures res.Ok? ==> Evolves(h, res.heap)
    decreases ActiveSet(h), 0, 0
  {
    if r.Nil? then Ok(h)
    else if r.id >= |h| || h[r.id].status.Freed? then Fault
    else if h[r.id].immortal then Ok(h)
    else
      var c := h[r.id].(rc := h[r.id].rc - 1);
      if c.rc != 0 || c.status.Deallocating? then Ok(h[r.id := c])
      else
        var h1 := h[r.id := c.(status := Deallocating)];
        assert r.id in ActiveSet(h) && r.id !in ActiveSet(h1);
        assert ActiveSet(h1) < ActiveSet(h);
        RunDealloc(h1, r.id, c.cls, 0, 0)
  }

  /** Runs statement k and the following ones of the dealloc function of cls on
      object id, whose ivars of class cls start at slot base. */
  function RunDealloc(h: Heap, id: nat, cls: Class, base: nat, k: nat): (res: Outcome)
    ensures res.Ok? ==> Evolves(h, res.heap)
    decreases ActiveSet(h), 1 + Depth(cls), |cls.own| + 1 - k
  {
    if k >= |EmitDealloc(cls)| then Ok(h)
    else if id >= |h| || h[id].status.Freed? then Fault
    else
      match EmitDealloc(cls)[k]
      case ReleaseOwn(j) =>
        if base + j >= |h[id].fields| then Fault
        else
          var res := Release(h, h[id].fields[base + j]);
          if res.Fault? then Fault
          else
            assert ActiveSet(res.heap) <= ActiveSet(h);
            RunDealloc(res.heap, id, cls, base, k + 1)
      case SuperDealloc =>
        if cls.Root? then Fault
        else RunDealloc(h, id, cls.parent, base + |cls.own|, 0)
      case DispatchFree => Ok(h[id := h[id].(status := Freed)])
  }

  // ---------- who refers to whom ----------

  /** A slot that a store statement has emptied into its hands but not overwritten yet. */
  datatype Hole = NoHole | Hole(id: nat, slot: nat)

  ghost function CellRefs(h: Heap, i: nat, hole: Hole): multiset<Ref>
    requires i < |h|
  {
    if !h[i].status.Active? then multiset{}
    else if hole.Hole? && hole.id == i && hole.slot < |h[i].fields|
      then multiset(h[i].fields[hole.slot := Nil])
    else multiset(h[i].fields)
  }

  /** How often r is stored in the first n cells that are active. */
  ghost function RefsUpTo(h: Heap, n: nat, hole: Hole, r: Ref): nat
    requires n <= |h|
  {
    if n == 0 then 0 else RefsUpTo(h, n - 1, hole, r) + CellRefs(h, n - 1, hole)[r]
  }

  ghost function Refs(h: Heap, hole: Hole, r: Ref): nat {
    RefsUpTo(h, |h|, hole, r)
  }

  lemma {:induction false} RefsUnchanged(h: Heap, h': Heap, n: nat, hole: Hole, hole': Hole, r: Ref)
    requires n <= |h| && n <= |h'|
    requires forall i: nat :: i < n ==> CellRefs(h, i, hole) == CellRefs(h', i, hole')
    ensures RefsUpTo(h, n, hole, r) == RefsUpTo(h', n, hole', r)
  {
    if n > 0 {
      assert CellRefs(h, n - 1, hole) == CellRefs(h', n - 1, hole');
      RefsUnchanged(h, h', n - 1, hole, hole', r);
    }
  }

  /** Changing one cell changes the references by that cell's difference. */
  lemma {:induction false} RefsChanged(h: Heap, h': Heap, n: nat, k: nat, hole: Hole, hole': Hole, r: Ref)
    requires k < n <= |h| && n <= |h'|
    requires forall i: nat :: i < n && i != k ==> CellRefs(h, i, hole) == CellRefs(h', i, hole')
    ensures RefsUpTo(h', n, hole', r) + CellRefs(h, k, hole)[r] == RefsUpTo(h, n, hole, r) + CellRefs(h', k, hole')[r]
  {
    if k == n - 1 {
      RefsUnchanged(h, h', n - 1, hole, hole', r);
    } else {
      assert CellRefs(h, n - 1, hole) == CellRefs(h', n - 1, hole');
      RefsChanged(h, h', n - 1, k, hole, hole', r);
    }
  }

  lemma {:induction false} RefsContain(h: Heap, n: nat, k: nat, hole: Hole, r: Ref)
    requires k < n <= |h|
    ensures CellRefs(h, k, hole)[r] <= RefsUpTo(h, n, hole, r)
  {
    if k < n - 1 {
      RefsContain(h, n - 1, k, hole, r);
    }
  }

  lemma {:induction false} RefsWitness(h: Heap, n: nat, r: Ref, hole: Hole) returns (k: nat)
    requires n <= |h| && RefsUpTo(h, n, hole, r) > 0
    ensures k < n && r in CellRefs(h, k, hole)
  {
    k := n - 1;
    if CellRefs(h, k, hole)[r] == 0 {
      k := RefsWitness(h, n - 1, r, hole);
    }
  }

  // ---------- the counting invariant ----------

  ghost predicate WellShaped(h: Heap) {
    forall i :: 0 <= i < |h| ==>
      && |h[i].fields| == |Slots(h[i].cls)|
      && (h[i].immortal ==> h[i].status.Active?)
  }

  /** The count of object i is the number of references to it, both those stored in
      active objects and those held from outside the object graph (by callers, local
      variables, or in transit); only active objects are referred to. */
  ghost predicate CountedAt(h: Heap, held: multiset<Ref>, hole: Hole, i: nat) {
    var n := held[Obj(i)] + Refs(h, hole, Obj(i));
    && (n > 0 ==> ActiveAt(h, i))
    && (ActiveAt(h, i) && !h[i].immortal ==> h[i].rc == n > 0)
  }

  ghost predicate CountedWithHole(h: Heap, held: multiset<Ref>, hole: Hole) {
    WellShaped(h) && forall i: nat :: CountedAt(h, held, hole, i)
  }

  ghost predicate Counted(h: Heap, held: multiset<Ref>) {
    CountedWithHole(h, held, NoHole)
  }

  /** Object i is kept by being immortal, held, or referred to by a kept object. */
  ghost predicate SupportedAt(h: Heap, i: nat, keep: set<nat>, held: multiset<Ref>, hole: Hole)
    requires i < |h|
  {
    h[i].immortal || Obj(i) in held || exists p :: p in keep && p < |h| && Obj(i) in CellRefs(h, p, hole)
  }

  ghost predicate Supported(h: Heap, keep: set<nat>, held: multiset<Ref>, hole: Hole) {
    forall i :: i in keep ==> ActiveAt(h, i) && SupportedAt(h, i, keep, held, hole)
  }

  lemma SupportedMonotone(h: Heap, keep: set<nat>, held: multiset<Ref>, held': multiset<Ref>, hole: Hole)
    requires Supported(h, keep, held, hole) && held <= held'
    ensures Supported(h, keep, held', hole)
  {
    forall i | i in keep ensures SupportedAt(h, i, keep, held', hole) {
      assert SupportedAt(h, i, keep, held, hole);
    }
  }

  /** Support only looks at the kept objects, which are all still active. */
  lemma SupportedAfter(h: Heap, h': Heap, keep: set<nat>, held: multiset<Ref>, hole: Hole)
    requires Supported(h, keep, held, hole) && Evolves(h, h')
    requires forall i :: i in keep ==> ActiveAt(h', i)
    ensures Supported(h', keep, held, hole)
  {
    forall i | i in keep ensures SupportedAt(h', i, keep, held, hole) {
      assert SupportedAt(h, i, keep, held, hole);
      forall p | p in keep && p < |h| ensures CellRefs(h, p, hole) == CellRefs(h', p, hole) {
        assert ActiveAt(h', p);
      }
    }
  }

  /** An object whose only reference is given up is kept by nothing. */
  lemma LastNotKept(h: Heap, held: multiset<Ref>, id: nat, keep: set<nat>, hole: Hole)
    requires ActiveAt(h, id) && !h[id].immortal
    requires held[Obj(id)] == 1 && Refs(h, hole, Obj(id)) == 0
    requires Supported(h, keep, held - multiset{Obj(id)}, hole)
    ensures id !in keep
  {
    if id in keep {
      assert SupportedAt(h, id, keep, held - multiset{Obj(id)}, hole);
      var p :| p in keep && p < |h| && Obj(id) in CellRefs(h, p, hole);
      RefsContain(h, |h|, p, hole, Obj(id));
    }
  }

  /** What a release does to the cells: active cells stay or are freed with count
      zero, and cells already being deallocated or freed are left alone. */
  ghost predicate SettledAt(c: Cell, c': Cell) {
    if c.status.Active?
    then c'.status.Active? || (c'.status.Freed? && c'.rc == 0)
    else c' == c
  }

  ghost predicate Settles(h: Heap, h': Heap) {
    Evolves(h, h') && forall i :: 0 <= i < |h| ==> SettledAt(h[i], h'[i])
  }

  // ---------- the cascade ----------

  /** Dropping one of several references. */
  lemma CountDown(h: Heap, h': Heap, held: multiset<Ref>, id: nat, hole: Hole)
    requires CountedWithHole(h, held, hole) && Obj(id) in held
    requires ActiveAt(h, id) && !h[id].immortal && h[id].rc > 1
    requires h' == h[id := h[id].(rc := h[id].rc - 1)]
    ensures CountedWithHole(h', held - multiset{Obj(id)}, hole)
  {
    var rest := held - multiset{Obj(id)};
    forall i: nat ensures CountedAt(h', rest, hole, i) {
      assert CountedAt(h, held, hole, i);
      RefsUnchanged(h, h', |h|, hole, hole, Obj(i));
      assert rest[Obj(i)] == held[Obj(i)] - if i == id then 1 else 0;
    }
  }

  /** The object starts to be deallocated, and its ivars are held by the dealloc chain. */
  lemma OpenCell(h: Heap, h': Heap, held: multiset<Ref>, held': multiset<Ref>, id: nat, hole: Hole)
    requires CountedWithHole(h, held, hole) && Obj(id) in held
    requires ActiveAt(h, id) && !h[id].immortal && h[id].rc == 1
    requires hole.Hole? ==> hole.id != id
    requires h' == h[id := h[id].(rc := 0, status := Deallocating)]
    requires held' == held - multiset{Obj(id)} + multiset(h[id].fields)
    ensures CountedWithHole(h', held', hole)
  {
    forall i: nat ensures CountedAt(h', held', hole, i) {
      OpenedAt(h, h', held, held', id, hole, i);
    }
  }

  lemma OpenedAt(h: Heap, h': Heap, held: multiset<Ref>, held': multiset<Ref>, id: nat, hole: Hole, i: nat)
    requires CountedAt(h, held, hole, i) && CountedAt(h, held, hole, id) && Obj(id) in held
    requires ActiveAt(h, id) && !h[id].immortal && h[id].rc == 1
    requires hole.Hole? ==> hole.id != id
    requires h' == h[id := h[id].(rc := 0, status := Deallocating)]
    requires held' == held - multiset{Obj(id)} + multiset(h[id].fields)
    ensures CountedAt(h', held', hole, i)
  {
    OpenedRefs(h, h', id, hole, Obj(i));
    assert held'[Obj(i)] == held[Obj(i)] - (if i == id then 1 else 0) + multiset(h[id].fields)[Obj(i)];
  }

  lemma OpenedRefs(h: Heap, h': Heap, id: nat, hole: Hole, r: Ref)
    requires ActiveAt(h, id) && (hole.Hole? ==> hole.id != id)
    requires h' == h[id := h[id].(rc := 0, status := Deallocating)]
    ensures Refs(h, hole, r) == Refs(h', hole, r) + multiset(h[id].fields)[r]
  {
    RefsChanged(h, h', |h|, id, hole, hole, r);
  }

  lemma FreeCell(h: Heap, h': Heap, held: multiset<Ref>, id: nat, hole: Hole)
    requires CountedWithHole(h, held, hole)
    requires id < |h| && h[id].status.Deallocating?
    requires h' == h[id := h[id].(status := Freed)]
    ensures CountedWithHole(h', held, hole)
  {
    forall i: nat ensures CountedAt(h', held, hole, i) {
      assert CountedAt(h, held, hole, i);
      RefsUnchanged(h, h', |h|, hole, hole, Obj(i));
    }
  }

  ghost predicate Released(h: Heap, res: Outcome, held: multiset<Ref>, keep: set<nat>, hole: Hole) {
    && res.Ok? && Settles(h, res.heap)
    && CountedWithHole(res.heap, held, hole)
    && Supported(res.heap, keep, held, hole)
  }

  /** The deallocation of id is over: id is freed, everything else settled. */
  ghost predicate Deallocated(h: Heap, res: Outcome, id: nat, held: multiset<Ref>, keep: set<nat>, hole: Hole)
    requires id < |h|
  {
    && res.Ok? && Evolves(h, res.heap)
    && res.heap[id] == h[id].(status := Freed)
    && (forall i :: 0 <= i < |h| && i != id ==> SettledAt(h[i], res.heap[i]))
    && CountedWithHole(res.heap, held, hole)
    && Supported(res.heap, keep, held, hole)
  }

  lemma {:induction false} ReleaseCascade(h: Heap, held: multiset<Ref>, r: Ref, keep: set<nat>, hole: Hole)
    requires CountedWithHole(h, held, hole) && r in held
    requires Supported(h, keep, held - multiset{r}, hole)
    requires hole.Hole? ==> hole.id in keep
    ensures Released(h, Release(h, r), held - multiset{r}, keep, hole)
    decreases ActiveSet(h), 0, 1
  {
    var rest := held - multiset{r};
    assert r.Obj? ==> CountedAt(h, held, hole, r.id);
    if r.Nil? || h[r.id].immortal {
      ReleaseNothing(h, held, r, hole);
    } else if h[r.id].rc > 1 {
      var h' := h[r.id := h[r.id].(rc := h[r.id].rc - 1)];
      CountDown(h, h', held, r.id, hole);
      SupportedAfter(h, h', keep, rest, hole);
    } else {
      ReleaseLast(h, held, r.id, keep, hole);
    }
  }

  /** Giving up nil, or a reference to an immortal object, changes no count. */
  lemma ReleaseNothing(h: Heap, held: multiset<Ref>, r: Ref, hole: Hole)
    requires CountedWithHole(h, held, hole) && r in held
    requires r.Nil? || (r.id < |h| && h[r.id].immortal)
    ensures CountedWithHole(h, held - multiset{r}, hole)
  {
    forall i: nat ensures CountedAt(h, held - multiset{r}, hole, i) {
      assert CountedAt(h, held, hole, i);
    }
  }

  lemma {:induction false} ReleaseLast(h: Heap, held: multiset<Ref>, id: nat, keep: set<nat>, hole: Hole)
    requires CountedWithHole(h, held, hole) && Obj(id) in held
    requires ActiveAt(h, id) && !h[id].immortal && h[id].rc == 1
    requires Supported(h, keep, held - multiset{Obj(id)}, hole)
    requires hole.Hole? ==> hole.id in keep
    ensures Released(h, Release(h, Obj(id)), held - multiset{Obj(id)}, keep, hole)
    decreases ActiveSet(h), 0, 0
  {
    var rest := held - multiset{Obj(id)};
    var h1 := h[id := h[id].(rc := 0, status := Deallocating)];
    assert CountedAt(h, held, hole, id);
    LastNotKept(h, held, id, keep, hole);
    OpenCell(h, h1, held, rest + multiset(h[id].fields), id, hole);
    SupportedAfter(h, h1, keep, rest, hole);
    assert h[id].fields[0..] == h[id].fields;
    assert id in ActiveSet(h) && id !in ActiveSet(h1);
    assert ActiveSet(h1) < ActiveSet(h);
    DeallocCascade(h1, rest, id, h[id].cls, 0, 0, keep, hole);
  }

  // The three kinds of statement in a dealloc function, one equation each.

  lemma RunOwn(h: Heap, id: nat, cls: Class, base: nat, k: nat, h1: Heap)
    requires id < |h| && !h[id].status.Freed? && k < |cls.own| && base + k < |h[id].fields|
    requires Release(h, h[id].fields[base + k]) == Ok(h1)
    ensures RunDealloc(h, id, cls, base, k) == RunDealloc(h1, id, cls, base, k + 1)
  {
    assert EmitDealloc(cls)[k] == ReleaseOwn(k);
  }

  lemma RunOwnFault(h: Heap, id: nat, cls: Class, base: nat, k: nat)
    requires k < |cls.own|
    requires id >= |h| || h[id].status.Freed? || base + k >= |h[id].fields| ||
             Release(h, h[id].fields[base + k]).Fault?
    ensures RunDealloc(h, id, cls, base, k).Fault?
  {
    assert EmitDealloc(cls)[k] == ReleaseOwn(k);
  }

  lemma RunSuper(h: Heap, id: nat, cls: Class, base: nat)
    requires id < |h| && !h[id].status.Freed? && cls.Sub?
    ensures RunDealloc(h, id, cls, base, |cls.own|) == RunDealloc(h, id, cls.parent, base + |cls.own|, 0)
  {
    assert EmitDealloc(cls)[|cls.own|] == SuperDealloc;
  }

  lemma RunFree(h: Heap, id: nat, cls: Class, base: nat)
    requires id < |h| && !h[id].status.Freed? && cls.Root?
    ensures RunDealloc(h, id, cls, base, |cls.own|) == Ok(h[id := h[id].(status := Freed)])
  {
    assert EmitDealloc(cls)[|cls.own|] == DispatchFree;
  }

  /** Where a dealloc chain on id stands: besides rest, the ivars from slot `from` on are
      still held. */
  ghost predicate Chain(h: Heap, rest: multiset<Ref>, id: nat, from: nat, keep: set<nat>, hole: Hole) {
    && id < |h| && h[id].status.Deallocating? && h[id].rc == 0
    && from <= |h[id].fields|
    && CountedWithHole(h, rest + multiset(h[id].fields[from..]), hole)
    && Supported(h, keep, rest, hole)
    && (hole.Hole? ==> hole.id in keep)
  }

  /** Every ivar that the chain still holds is given up, and the object freed. */
  lemma {:induction false} DeallocCascade(h: Heap, rest: multiset<Ref>, id: nat, cls: Class, base: nat, k: nat,
                                          keep: set<nat>, hole: Hole)
    requires Chain(h, rest, id, base + k, keep, hole)
    requires k <= |cls.own| && base + |Slots(cls)| == |h[id].fields|
    ensures Deallocated(h, RunDealloc(h, id, cls, base, k), id, rest, keep, hole)
    decreases ActiveSet(h), 1 + Depth(cls), |cls.own| + 1 - k, 1
  {
    if k < |cls.own| {
      OwnCascade(h, rest, id, cls, base, k, keep, hole);
    } else if cls.Sub? {
      RunSuper(h, id, cls, base);
      DeallocCascade(h, rest, id, cls.parent, base + |cls.own|, 0, keep, hole);
    } else {
      RunFree(h, id, cls, base);
      ChainEnd(h, rest, id, keep, hole);
    }
  }

  lemma {:induction false} OwnCascade(h: Heap, rest: multiset<Ref>, id: nat, cls: Class, base: nat, k: nat,
                                      keep: set<nat>, hole: Hole)
    requires Chain(h, rest, id, base + k, keep, hole)
    requires k < |cls.own| && base + |Slots(cls)| == |h[id].fields|
    ensures Deallocated(h, RunDealloc(h, id, cls, base, k), id, rest, keep, hole)
    decreases ActiveSet(h), 1 + Depth(cls), |cls.own| + 1 - k, 0
  {
    var h1 := ChainNext(h, rest, id, base + k, keep, hole, 1 + Depth(cls));
    RunOwn(h, id, cls, base, k, h1);
    assert ActiveSet(h1) <= ActiveSet(h);
    DeallocCascade(h1, rest, id, cls, base, k + 1, keep, hole);
    DeallocatedThen(h, h1, RunDealloc(h1, id, cls, base, k + 1), id, rest, keep, hole);
  }

  /** One ivar is released, and the chain goes on. */
  lemma {:induction false} ChainNext(h: Heap, rest: multiset<Ref>, id: nat, from: nat, keep: set<nat>, hole: Hole,
                                     depth: nat)
      returns (h1: Heap)
    requires Chain(h, rest, id, from, keep, hole) && from < |h[id].fields| && depth > 0
    ensures Release(h, h[id].fields[from]) == Ok(h1) && Settles(h, h1) && h1[id] == h[id]
    ensures Chain(h1, rest, id, from + 1, keep, hole)
    decreases ActiveSet(h), depth, 0
  {
    var f := h[id].fields[from];
    var held := rest + multiset(h[id].fields[from..]);
    TakeFirst(h[id].fields, from, rest);
    SupportedMonotone(h, keep, rest, held - multiset{f}, hole);
    ReleaseCascade(h, held, f, keep, hole);
    h1 := Release(h, f).heap;
    assert SettledAt(h[id], h1[id]);
    SupportedAfter(h, h1, keep, rest, hole);
  }

  /** Every ivar is released, and the root frees the object. */
  lemma ChainEnd(h: Heap, rest: multiset<Ref>, id: nat, keep: set<nat>, hole: Hole)
    requires id < |h| && Chain(h, rest, id, |h[id].fields|, keep, hole)
    ensures Deallocated(h, Ok(h[id := h[id].(status := Freed)]), id, rest, keep, hole)
  {
    var h1 := h[id := h[id].(status := Freed)];
    assert rest + multiset(h[id].fields[|h[id].fields|..]) == rest;
    FreeCell(h, h1, rest, id, hole);
    SupportedAfter(h, h1, keep, rest, hole);
  }

  lemma TakeFirst(s: seq<Ref>, k: nat, rest: multiset<Ref>)
    requires k < |s|
    ensures s[k] in rest + multiset(s[k..]) && rest <= rest + multiset(s[k + 1..])
    ensures rest + multiset(s[k..]) - multiset{s[k]} == rest + multiset(s[k + 1..])
  {
    assert s[k..] == [s[k]] + s[k + 1..];
  }

  lemma DeallocatedThen(h: Heap, h1: Heap, res: Outcome, id: nat, held: multiset<Ref>, keep: set<nat>, hole: Hole)
    requires Settles(h, h1) && id < |h| && h1[id] == h[id]
    requires Deallocated(h1, res, id, held, keep, hole)
    ensures Deallocated(h, res, id, held, keep, hole)
  {
    forall i | 0 <= i < |h| && i != id ensures SettledAt(h[i], res.heap[i]) {
      assert SettledAt(h[i], h1[i]) && SettledAt(h1[i], res.heap[i]);
    }
  }
}
