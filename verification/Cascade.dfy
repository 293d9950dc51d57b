/**
 What the emitted reference counting functions promise about whole heaps: one
 release frees exactly the objects that nothing keeps any more, and every heap
 operation of an emitted method body keeps the count equation.
 */
module Cascade {
  import opened ObjectHeap

  // ---------- one release ----------

  /** After giving up r, an object is still there if and only if some set of objects
      containing it keeps itself alive from the references that are left. */
  lemma ReleaseExact(h: Heap, held: multiset<Ref>, r: Ref)
    requires Counted(h, held) && r in held
    ensures var res := Release(h, r); var rest := held - multiset{r};
      && res.Ok? && Counted(res.heap, rest) && Settles(h, res.heap)
      && forall i: nat :: ActiveAt(res.heap, i) <==> exists keep :: i in keep && Supported(h, keep, rest, NoHole)
  {
    var rest := held - multiset{r};
    ReleaseCascade(h, held, r, {}, NoHole);
    var h' := Release(h, r).heap;
    forall i: nat
      ensures ActiveAt(h', i) <==> exists keep :: i in keep && Supported(h, keep, rest, NoHole)
    {
      if ActiveAt(h', i) {
        SurvivorsSupported(h, h', rest);
        assert i in ActiveSet(h');
      }
      forall keep | i in keep && Supported(h, keep, rest, NoHole) ensures ActiveAt(h', i) {
        ReleaseCascade(h, held, r, keep, NoHole);
      }
    }
  }

  lemma SurvivorsSupported(h: Heap, h': Heap, rest: multiset<Ref>)
    requires Evolves(h, h') && Counted(h', rest)
    ensures Supported(h, ActiveSet(h'), rest, NoHole)
  {
    forall i | i in ActiveSet(h') ensures ActiveAt(h, i) && SupportedAt(h, i, ActiveSet(h'), rest, NoHole) {
      assert CountedAt(h', rest, NoHole, i);
      if !h[i].immortal && Obj(i) !in rest {
        var p := RefsWitness(h', |h'|, Obj(i), NoHole);
        assert p in ActiveSet(h') && CellRefs(h, p, NoHole) == CellRefs(h', p, NoHole);
      }
    }
  }

  ghost predicate PointsTo(h: Heap, p: nat, o: nat) {
    p < |h| && o < |h| && Obj(o) in h[p].fields
  }

  /** A walk along strong ivars. */
  ghost predicate Walk(h: Heap, path: seq<nat>) {
    |path| > 0 && forall j, k :: 0 <= j && k == j + 1 && k < |path| ==> PointsTo(h, path[j], path[k])
  }

  /** Nothing that a remaining reference can reach is freed. */
  lemma {:induction false} ReachableSurvives(h: Heap, held: multiset<Ref>, r: Ref, path: seq<nat>)
    requires Counted(h, held) && r in held
    requires Walk(h, path) && Obj(path[0]) in held - multiset{r}
    ensures Release(h, r).Ok? && ActiveAt(Release(h, r).heap, path[|path| - 1])
  {
    ReleaseCascade(h, held, r, {}, NoHole);
    var h' := Release(h, r).heap;
    if |path| == 1 {
      assert CountedAt(h', held - multiset{r}, NoHole, path[0]);
    } else {
      var before := path[..|path| - 1];
      assert Walk(h, before);
      ReachableSurvives(h, held, r, before);
      var p, o := path[|path| - 2], path[|path| - 1];
      assert PointsTo(h, p, o) && p == before[|before| - 1];
      TargetActive(h', held - multiset{r}, p, o);
    }
  }

  lemma TargetActive(h: Heap, held: multiset<Ref>, p: nat, o: nat)
    requires Counted(h, held) && ActiveAt(h, p) && PointsTo(h, p, o)
    ensures ActiveAt(h, o)
  {
    assert CellRefs(h, p, NoHole) == multiset(h[p].fields);
    RefsContain(h, |h|, p, NoHole, Obj(o));
    assert CountedAt(h, held, NoHole, o);
  }

  /** Every object that a release takes away ends freed with count zero, and an object
      that is left has a positive count. */
  lemma FreedMeansZero(h: Heap, held: multiset<Ref>, r: Ref, i: nat)
    requires Counted(h, held) && r in held && ActiveAt(h, i) && !h[i].immortal
    ensures var res := Release(h, r);
      res.Ok? && |res.heap| == |h| && (res.heap[i].status.Freed? <==> res.heap[i].rc == 0)
  {
    ReleaseCascade(h, held, r, {}, NoHole);
    var h' := Release(h, r).heap;
    assert SettledAt(h[i], h'[i]) && CountedAt(h', held - multiset{r}, NoHole, i);
  }

  // ---------- the dealloc chain as one straight line ----------

  /** The dealloc function of cls with the superclass calls expanded. */
  function Expand(cls: Class, base: nat): seq<DeallocOp> {
    seq(|cls.own|, (k: nat) => ReleaseOwn(base + k)) +
    if cls.Root? then [DispatchFree] else Expand(cls.parent, base + |cls.own|)
  }

  /** Every strong ivar of the class and of each ancestor is released once, in order,
      and the object is freed once, at the end. */
  lemma {:induction false} ExpandReleasesEachOnce(cls: Class, base: nat)
    ensures Expand(cls, base) == seq(|Slots(cls)|, (k: nat) => ReleaseOwn(base + k)) + [DispatchFree]
  {
    if cls.Sub? {
      ExpandReleasesEachOnce(cls.parent, base + |cls.own|);
    }
  }

  function RunLine(h: Heap, id: nat, ops: seq<DeallocOp>): (res: Outcome)
    decreases |ops|
  {
    if ops == [] then Ok(h)
    else if id >= |h| || h[id].status.Freed? then Fault
    else
      match ops[0]
      case ReleaseOwn(j) =>
        if j >= |h[id].fields| then Fault
        else
          var res := Release(h, h[id].fields[j]);
          if res.Fault? then Fault else RunLine(res.heap, id, ops[1..])
      case SuperDealloc => Fault
      case DispatchFree => Ok(h[id := h[id].(status := Freed)])
  }

  /** The releases of n ivars from slot `from` on, and the free. */
  ghost predicate Line(ops: seq<DeallocOp>, from: nat, n: nat) {
    && |ops| == n + 1 && ops[n] == DispatchFree
    && forall i :: 0 <= i < n ==> ops[i] == ReleaseOwn(from + i)
  }

  /** The chain of emitted dealloc functions behaves as the expanded one. */
  lemma ChainIsLine(h: Heap, id: nat, cls: Class, base: nat, k: nat)
    requires k <= |cls.own|
    ensures RunDealloc(h, id, cls, base, k) == RunLine(h, id, Expand(cls, base)[k..])
  {
    ExpandReleasesEachOnce(cls, base);
    RestIsLine(h, id, cls, base, k, Expand(cls, base)[k..]);
  }

  lemma {:induction false} RestIsLine(h: Heap, id: nat, cls: Class, base: nat, k: nat, ops: seq<DeallocOp>)
    requires k <= |cls.own| && Line(ops, base + k, |Slots(cls)| - k)
    ensures RunDealloc(h, id, cls, base, k) == RunLine(h, id, ops)
    decreases Depth(cls), |cls.own| - k, 1
  {
    if id >= |h| || h[id].status.Freed? {
      NothingRuns(h, id, cls, base, k, ops);
    } else if k < |cls.own| {
      OwnIsLine(h, id, cls, base, k, ops);
    } else if cls.Sub? {
      RunSuper(h, id, cls, base);
      RestIsLine(h, id, cls.parent, base + |cls.own|, 0, ops);
    } else {
      assert ops == [DispatchFree];
      RunFree(h, id, cls, base);
    }
  }

  lemma NothingRuns(h: Heap, id: nat, cls: Class, base: nat, k: nat, ops: seq<DeallocOp>)
    requires (id >= |h| || h[id].status.Freed?) && k <= |cls.own| && ops != []
    ensures RunDealloc(h, id, cls, base, k) == RunLine(h, id, ops) == Fault
  {
  }

  lemma {:induction false} OwnIsLine(h: Heap, id: nat, cls: Class, base: nat, k: nat, ops: seq<DeallocOp>)
    requires id < |h| && !h[id].status.Freed? && k < |cls.own| && Line(ops, base + k, |Slots(cls)| - k)
    ensures RunDealloc(h, id, cls, base, k) == RunLine(h, id, ops)
    decreases Depth(cls), |cls.own| - k, 0
  {
    if base + k >= |h[id].fields| || Release(h, h[id].fields[base + k]).Fault? {
      RunOwnFault(h, id, cls, base, k);
      LineFault(h, id, ops, base + k);
    } else {
      var h1 := Release(h, h[id].fields[base + k]).heap;
      RunOwn(h, id, cls, base, k, h1);
      LineOwn(h, id, ops, base + k, h1);
      RestIsLine(h1, id, cls, base, k + 1, ops[1..]);
    }
  }

  lemma LineFault(h: Heap, id: nat, ops: seq<DeallocOp>, j: nat)
    requires id < |h| && ops != [] && ops[0] == ReleaseOwn(j)
    requires j >= |h[id].fields| || Release(h, h[id].fields[j]).Fault?
    ensures RunLine(h, id, ops).Fault?
  {
  }

  lemma LineOwn(h: Heap, id: nat, ops: seq<DeallocOp>, j: nat, h1: Heap)
    requires id < |h| && !h[id].status.Freed? && ops != [] && ops[0] == ReleaseOwn(j)
    requires j < |h[id].fields| && Release(h, h[id].fields[j]) == Ok(h1)
    ensures RunLine(h, id, ops) == RunLine(h1, id, ops[1..])
  {
  }

  // ---------- what emitted statements do to the heap ----------

  lemma RetainCounts(h: Heap, held: multiset<Ref>, r: Ref)
    requires Counted(h, held) && (r.Obj? ==> ActiveAt(h, r.id))
    ensures var res := Retain(h, r); res.Ok? && Evolves(h, res.heap) && Counted(res.heap, held + multiset{r})
    ensures forall i: nat :: ActiveAt(h, i) ==> ActiveAt(Retain(h, r).heap, i)
  {
    var h', held' := Retain(h, r).heap, held + multiset{r};
    forall i: nat ensures CountedAt(h', held', NoHole, i) {
      assert CountedAt(h, held, NoHole, i);
      RefsUnchanged(h, h', |h|, NoHole, NoHole, Obj(i));
      assert held'[Obj(i)] == held[Obj(i)] + if r == Obj(i) then 1 else 0;
    }
  }

  /** A new instance: count one, every strong ivar nil. */
  function NewCell(cls: Class): Cell {
    Cell(cls, 1, seq(|Slots(cls)|, _ => Nil), false, Active)
  }

  /** A new object holds, in its strong ivars, references that were held before. */
  lemma NewCounts(h: Heap, held: multiset<Ref>, cell: Cell, held': multiset<Ref>)
    requires Counted(h, held)
    requires cell.status.Active? && !cell.immortal && cell.rc == 1 && |cell.fields| == |Slots(cell.cls)|
    requires forall i: nat :: held'[Obj(i)] + multiset(cell.fields)[Obj(i)] == held[Obj(i)] + if i == |h| then 1 else 0
    ensures Counted(h + [cell], held')
  {
    var h' := h + [cell];
    forall i: nat ensures CountedAt(h', held', NoHole, i) {
      assert CountedAt(h, held, NoHole, i);
      RefsUnchanged(h, h', |h|, NoHole, NoHole, Obj(i));
      assert CellRefs(h', |h|, NoHole) == multiset(cell.fields);
      assert ActiveAt(h, i) ==> h'[i] == h[i];
    }
  }

  /** The statements release(self->f); self->f = v; with v owned beforehand: the
      reference to v moves into the ivar, the old content is given up. */
  lemma StoreCounts(h: Heap, held: multiset<Ref>, self: nat, slot: nat, v: Ref)
    requires Counted(h, held + multiset{v}) && Obj(self) in held
    requires self < |h| && slot < |h[self].fields|
    ensures var res := Release(h, h[self].fields[slot]);
      && res.Ok? && Settles(h, res.heap) && ActiveAt(res.heap, self)
      && Counted(res.heap[self := res.heap[self].(fields := h[self].fields[slot := v])], held)
  {
    var was := h[self].fields[slot];
    var hole := Hole(self, slot);
    var held1, held2 := held + multiset{v} + multiset{was}, held + multiset{v};
    assert CountedAt(h, held2, NoHole, self);
    OpenHole(h, held2, hole);
    assert held1 - multiset{was} == held2;
    assert Supported(h, {self}, held2, hole) by {
      assert SupportedAt(h, self, {self}, held2, hole);
    }
    ReleaseCascade(h, held1, was, {self}, hole);
    var h1 := Release(h, was).heap;
    assert self in {self};
    FillHole(h1, held, hole, v);
  }

  lemma OpenHole(h: Heap, held: multiset<Ref>, hole: Hole)
    requires Counted(h, held) && hole.Hole?
    requires ActiveAt(h, hole.id) && hole.slot < |h[hole.id].fields|
    ensures CountedWithHole(h, held + multiset{h[hole.id].fields[hole.slot]}, hole)
  {
    var was := h[hole.id].fields[hole.slot];
    var held' := held + multiset{was};
    forall i: nat ensures CountedAt(h, held', hole, i) {
      assert CountedAt(h, held, NoHole, i);
      RefsChanged(h, h, |h|, hole.id, NoHole, hole, Obj(i));
      assert CellRefs(h, hole.id, hole)[Obj(i)] + multiset{was}[Obj(i)] == CellRefs(h, hole.id, NoHole)[Obj(i)];
    }
  }

  lemma FillHole(h: Heap, held: multiset<Ref>, hole: Hole, v: Ref)
    requires hole.Hole? && CountedWithHole(h, held + multiset{v}, hole)
    requires ActiveAt(h, hole.id) && hole.slot < |h[hole.id].fields|
    ensures Counted(h[hole.id := h[hole.id].(fields := h[hole.id].fields[hole.slot := v])], held)
  {
    var h' := h[hole.id := h[hole.id].(fields := h[hole.id].fields[hole.slot := v])];
    forall i: nat ensures CountedAt(h', held, NoHole, i) {
      FilledAt(h, h', held, hole, v, i);
    }
  }

  lemma FilledAt(h: Heap, h': Heap, held: multiset<Ref>, hole: Hole, v: Ref, i: nat)
    requires hole.Hole? && CountedAt(h, held + multiset{v}, hole, i)
    requires ActiveAt(h, hole.id) && hole.slot < |h[hole.id].fields|
    requires h' == h[hole.id := h[hole.id].(fields := h[hole.id].fields[hole.slot := v])]
    ensures CountedAt(h', held, NoHole, i)
  {
    FilledRefs(h, h', hole, v, Obj(i));
  }

  lemma FilledRefs(h: Heap, h': Heap, hole: Hole, v: Ref, r: Ref)
    requires hole.Hole? && ActiveAt(h, hole.id) && hole.slot < |h[hole.id].fields| && r.Obj?
    requires h' == h[hole.id := h[hole.id].(fields := h[hole.id].fields[hole.slot := v])]
    ensures Refs(h', NoHole, r) == Refs(h, hole, r) + multiset{v}[r]
  {
    var fields := h[hole.id].fields;
    RefsChanged(h, h', |h|, hole.id, hole, NoHole, r);
    assert multiset(fields[hole.slot := v]) == multiset(fields) - multiset{fields[hole.slot]} + multiset{v};
    assert multiset(fields[hole.slot := Nil]) == multiset(fields) - multiset{fields[hole.slot]} + multiset{Nil};
  }
}
