/**
 Why the retain-cycle check matters: in a program that passes it, giving up every
 outside reference frees every object but those that an immortal one keeps.
 */
module NoLeaks {
  import opened Wrappers
  import opened ObjectHeap
  import opened Cascade
  import opened ClassGraph

  /** The analysed tables agree with a class that objects are made of: they list its
      strong ivars and those it inherits, except ivars of the classes that the analysis
      leaves out. */
  ghost predicate Declared(h: Hierarchy, table: FieldTable, leaves: set<string>, cls: Class) {
    && (forall iv :: iv in cls.own ==>
          iv.target in leaves || Field(iv.name, iv.target) in FieldsOf(table, cls.name))
    && (cls.Sub? && Slots(cls.parent) != [] ==>
          Super(h, cls.name) == Some(cls.parent.name) && Declared(h, table, leaves, cls.parent))
  }

  lemma {:induction false} NthShift(h: Hierarchy, cls: string, parent: string, n: nat)
    requires Super(h, cls) == Some(parent)
    ensures Nth(h, cls, n + 1) == Nth(h, parent, n)
  {
    if n == 0 {
      assert Nth(h, cls, 0) == Some(cls);
    } else {
      NthShift(h, cls, parent, n - 1);
    }
  }

  /** The class that declares an ivar, as a distance up the chain. */
  lemma {:induction false} SlotDeclarer(h: Hierarchy, table: FieldTable, leaves: set<string>, cls: Class, iv: Ivar)
    returns (n: nat)
    requires Declared(h, table, leaves, cls) && iv in Slots(cls) && iv.target !in leaves
    ensures Nth(h, cls.name, n).Some? && Field(iv.name, iv.target) in FieldsOf(table, Nth(h, cls.name, n).value)
  {
    if iv in cls.own {
      n := 0;
    } else {
      n := SlotDeclarer(h, table, leaves, cls.parent, iv);
      NthShift(h, cls.name, cls.parent.name, n);
      n := n + 1;
    }
  }

  lemma SlotIsEdge(h: Hierarchy, table: FieldTable, leaves: set<string>, cls: Class, iv: Ivar)
    requires Declared(h, table, leaves, cls) && iv in Slots(cls) && iv.target !in leaves
    ensures StrongEdge(h, table, cls.name, iv.target)
  {
    var n := SlotDeclarer(h, table, leaves, cls, iv);
    if n > 0 {
      assert IsAncestor(h, cls.name, Nth(h, cls.name, n).value);
      SuperKnown(h, cls.name, n);
    }
    assert HasField(h, table, cls.name, Field(iv.name, iv.target));
  }

  lemma {:induction false} SuperKnown(h: Hierarchy, cls: string, n: nat)
    requires n > 0 && Nth(h, cls, n).Some?
    ensures cls in h
  {
    if n > 1 {
      SuperKnown(h, cls, n - 1);
    }
  }

  /** Every strong ivar holds nil or an instance of exactly its declared class. */
  ghost predicate TypedAt(heap: Heap, i: nat)
    requires i < |heap|
  {
    forall k :: 0 <= k < |heap[i].fields| && k < |Slots(heap[i].cls)| && heap[i].fields[k].Obj? ==>
      var o := heap[i].fields[k].id;
      o < |heap| && heap[o].cls.name == Slots(heap[i].cls)[k].target
  }

  /** Objects of the classes left out refer to nothing, all others are as declared. */
  ghost predicate ClassedAt(heap: Heap, h: Hierarchy, table: FieldTable, leaves: set<string>, i: nat)
    requires i < |heap|
  {
    if heap[i].cls.name in leaves then forall r :: r in heap[i].fields ==> r.Nil?
    else Declared(h, table, leaves, heap[i].cls)
  }

  ghost predicate Typed(heap: Heap, h: Hierarchy, table: FieldTable, leaves: set<string>) {
    forall i: nat :: ActiveAt(heap, i) ==> TypedAt(heap, i) && ClassedAt(heap, h, table, leaves, i)
  }

  ghost predicate Mortal(heap: Heap, i: nat) {
    ActiveAt(heap, i) && !heap[i].immortal
  }

  /** With nothing held from outside, a mortal object that is left is kept by another one. */
  lemma Keeper(heap: Heap, held: multiset<Ref>, i: nat) returns (p: nat)
    requires Counted(heap, held) && (forall o: nat :: Obj(o) !in held) && Mortal(heap, i)
    ensures ActiveAt(heap, p) && PointsTo(heap, p, i)
  {
    assert CountedAt(heap, held, NoHole, i);
    p := RefsWitness(heap, |heap|, Obj(i), NoHole);
  }

  lemma PointsIsEdge(heap: Heap, h: Hierarchy, table: FieldTable, leaves: set<string>, p: nat, o: nat)
    requires Typed(heap, h, table, leaves) && WellShaped(heap) && ActiveAt(heap, p) && PointsTo(heap, p, o)
    ensures heap[p].cls.name !in leaves
    ensures heap[o].cls.name !in leaves ==> StrongEdge(h, table, heap[p].cls.name, heap[o].cls.name)
  {
    assert TypedAt(heap, p) && ClassedAt(heap, h, table, leaves, p);
    var k :| 0 <= k < |heap[p].fields| && heap[p].fields[k] == Obj(o);
    if heap[o].cls.name !in leaves {
      SlotIsEdge(h, table, leaves, heap[p].cls, Slots(heap[p].cls)[k]);
    }
  }

  function ClassOf(heap: Heap, i: nat): string {
    if i < |heap| then heap[i].cls.name else ""
  }

  function ClassesOf(heap: Heap, chain: seq<nat>): seq<string> {
    seq(|chain|, j requires 0 <= j < |chain| => ClassOf(heap, chain[j]))
  }

  /** A chain of mortal objects, each referring to the next. */
  ghost predicate KeepingChain(heap: Heap, chain: seq<nat>) {
    Cascade.Walk(heap, chain) && forall i :: i in chain ==> Mortal(heap, i)
  }

  ghost function ClassNames(heap: Heap): set<string> {
    set c | c in heap :: c.cls.name
  }

  /** Without cycles between classes, such a chain meets every class at most once. */
  lemma ChainIsShort(heap: Heap, h: Hierarchy, table: FieldTable, leaves: set<string>, chain: seq<nat>)
    requires Typed(heap, h, table, leaves) && WellShaped(heap) && KeepingChain(heap, chain)
    requires forall w :: !StrongClosedWalk(h, table, w)
    ensures |chain| <= |ClassNames(heap)|
  {
    var names := ClassesOf(heap, chain);
    forall a, b | 0 <= a < b < |names| ensures names[a] != names[b] {
      NoReturn(heap, h, table, leaves, chain, a, b);
    }
    forall j | 0 <= j < |names| ensures names[j] in ClassNames(heap) {
      assert chain[j] in chain && heap[chain[j]] in heap;
    }
    DistinctFits(names, ClassNames(heap));
  }

  lemma NoReturn(heap: Heap, h: Hierarchy, table: FieldTable, leaves: set<string>, chain: seq<nat>, a: nat, b: nat)
    requires Typed(heap, h, table, leaves) && WellShaped(heap) && KeepingChain(heap, chain) && a < b < |chain|
    requires forall w :: !StrongClosedWalk(h, table, w)
    ensures ClassOf(heap, chain[a]) != ClassOf(heap, chain[b])
  {
    var part := chain[a..b + 1];
    var w := ClassesOf(heap, part);
    assert part[0] == chain[a] && part[1] == chain[a + 1];
    forall j, k | 0 <= j && k == j + 1 && k < |w|
      ensures StepUp(h, table, leaves, w[j], w[k])
    {
      assert part[j] == chain[a + j] && part[k] == chain[a + k];
      assert chain[a + j] in chain && PointsTo(heap, chain[a + j], chain[a + k]);
      PointsIsEdge(heap, h, table, leaves, part[j], part[k]);
    }
    BackMeansClosed(h, table, leaves, w);
    assert w[0] == ClassOf(heap, chain[a]) && w[|w| - 1] == ClassOf(heap, chain[b]);
  }

  /** From an object of class u to one of class v. */
  ghost predicate StepUp(h: Hierarchy, table: FieldTable, leaves: set<string>, u: string, v: string) {
    u !in leaves && (v !in leaves ==> StrongEdge(h, table, u, v))
  }

  /** Only the last class of such a walk may be one of those left out. */
  lemma BackMeansClosed(h: Hierarchy, table: FieldTable, leaves: set<string>, w: seq<string>)
    requires |w| > 1
    requires forall j, k :: 0 <= j && k == j + 1 && k < |w| ==> StepUp(h, table, leaves, w[j], w[k])
    ensures w[0] == w[|w| - 1] ==> StrongClosedWalk(h, table, w)
  {
    assert StepUp(h, table, leaves, w[0], w[1]);
    forall j, k | 0 <= j && k == j + 1 && k < |w| && w[0] == w[|w| - 1] ensures StrongEdge(h, table, w[j], w[k]) {
      assert StepUp(h, table, leaves, w[j], w[k]);
      if k + 1 < |w| {
        assert StepUp(h, table, leaves, w[k], w[k + 1]);
      }
    }
  }

  lemma {:induction false} DistinctFits(s: seq<string>, all: set<string>)
    requires Distinct(s) && forall x :: x in s ==> x in all
    ensures |s| <= |all|
  {
    if s != [] {
      var n := |s| - 1;
      DistinctFits(s[..n], all - {s[n]});
    }
  }

  // ---------- objects that immortal ones keep ----------

  /** A walk along strong ivars from an immortal object to object i. */
  ghost predicate PinningPath(heap: Heap, path: seq<nat>, i: nat) {
    Cascade.Walk(heap, path) && path[0] < |heap| && heap[path[0]].immortal && path[|path| - 1] == i
  }

  ghost predicate Pinned(heap: Heap, i: nat) {
    exists path :: PinningPath(heap, path, i)
  }

  /** The keepers of a mortal object that is left lead up to an immortal one, since without
      cycles between classes they cannot go on for ever. */
  lemma {:induction false} KeptByImmortal(heap: Heap, held: multiset<Ref>, h: Hierarchy, table: FieldTable,
                                          leaves: set<string>, chain: seq<nat>)
    requires Counted(heap, held) && (forall o: nat :: Obj(o) !in held)
    requires Typed(heap, h, table, leaves) && forall w :: !StrongClosedWalk(h, table, w)
    requires KeepingChain(heap, chain)
    ensures Pinned(heap, chain[|chain| - 1])
    decreases |ClassNames(heap)| - |chain|
  {
    assert chain[0] in chain;
    var p := Keeper(heap, held, chain[0]);
    var longer := [p] + chain;
    assert Cascade.Walk(heap, longer) by {
      forall j, k | 0 <= j && k == j + 1 && k < |longer| ensures PointsTo(heap, longer[j], longer[k]) {
        if j > 0 {
          assert longer[j] == chain[j - 1] && longer[k] == chain[k - 1];
        }
      }
    }
    assert longer[|longer| - 1] == chain[|chain| - 1];
    if heap[p].immortal {
      assert PinningPath(heap, longer, chain[|chain| - 1]);
    } else {
      ChainIsShort(heap, h, table, leaves, longer);
      KeptByImmortal(heap, held, h, table, leaves, longer);
    }
  }

  /** Whatever an immortal object reaches is alive. */
  lemma {:induction false} PinnedActive(heap: Heap, held: multiset<Ref>, path: seq<nat>, i: nat)
    requires Counted(heap, held) && PinningPath(heap, path, i)
    ensures ActiveAt(heap, i)
    decreases |path|
  {
    if |path| > 1 {
      var n := |path| - 1;
      assert PinningPath(heap, path[..n], path[n - 1]);
      PinnedActive(heap, held, path[..n], path[n - 1]);
      TargetActive(heap, held, path[n - 1], i);
    }
  }

  /** Releases change neither ivars nor who is immortal. */
  lemma PinnedStays(heap: Heap, heap': Heap, path: seq<nat>, i: nat)
    requires Evolves(heap, heap')
    ensures PinningPath(heap, path, i) <==> PinningPath(heap', path, i)
  {
    if |path| > 0 {
      assert Cascade.Walk(heap, path) <==> Cascade.Walk(heap', path) by {
        forall j, k | 0 <= j && k == j + 1 && k < |path|
          ensures PointsTo(heap, path[j], path[k]) <==> PointsTo(heap', path[j], path[k])
        {
        }
      }
    }
  }

  /** Gives up the references one by one. */
  function ReleaseAll(heap: Heap, refs: seq<Ref>): Outcome {
    if refs == [] then Ok(heap)
    else
      var n := |refs| - 1;
      match ReleaseAll(heap, refs[..n])
      case Fault => Fault
      case Ok(h1) => Release(h1, refs[n])
  }

  lemma {:induction false} ReleaseAllCounts(heap: Heap, refs: seq<Ref>, others: multiset<Ref>)
    requires Counted(heap, multiset(refs) + others)
    ensures var res := ReleaseAll(heap, refs);
      res.Ok? && Settles(heap, res.heap) && Counted(res.heap, others)
  {
    if refs == [] {
      assert multiset(refs) + others == others;
    } else {
      var n := |refs| - 1;
      var last := multiset{refs[n]};
      assert refs == refs[..n] + [refs[n]];
      assert multiset(refs) + others == multiset(refs[..n]) + (last + others);
      ReleaseAllCounts(heap, refs[..n], last + others);
      var h1 := ReleaseAll(heap, refs[..n]).heap;
      ReleaseCascade(h1, last + others, refs[n], {}, NoHole);
      assert last + others - last == others;
      var h2 := Release(h1, refs[n]).heap;
      forall i | 0 <= i < |heap| ensures SettledAt(heap[i], h2[i]) {
        assert SettledAt(heap[i], h1[i]) && SettledAt(h1[i], h2[i]);
      }
    }
  }

  /** No leaks, exactly: if the check finds no cycle and the heap is typed as declared,
      giving up all outside references, in any order, frees a mortal object if and only if
      no immortal object reaches it. */
  lemma LeaksExact(heap: Heap, refs: seq<Ref>, h: Hierarchy, table: FieldTable, leaves: set<string>)
    requires Counted(heap, multiset(refs)) && Typed(heap, h, table, leaves)
    requires forall w :: !StrongClosedWalk(h, table, w)
    ensures var res := ReleaseAll(heap, refs);
      && res.Ok? && |res.heap| == |heap|
      && forall i: nat :: Mortal(heap, i) ==> (res.heap[i].status.Freed? <==> !Pinned(heap, i))
  {
    assert multiset(refs) + multiset{} == multiset(refs);
    ReleaseAllCounts(heap, refs, multiset{});
    var heap' := ReleaseAll(heap, refs).heap;
    forall i: nat | Mortal(heap, i) ensures heap'[i].status.Freed? <==> !Pinned(heap, i) {
      LeftIsPinned(heap, heap', h, table, leaves, i);
    }
  }

  lemma LeftIsPinned(heap: Heap, heap': Heap, h: Hierarchy, table: FieldTable, leaves: set<string>, i: nat)
    requires Settles(heap, heap') && Counted(heap', multiset{}) && Typed(heap, h, table, leaves) && Mortal(heap, i)
    requires forall w :: !StrongClosedWalk(h, table, w)
    ensures heap'[i].status.Freed? <==> !Pinned(heap, i)
  {
    assert SettledAt(heap[i], heap'[i]);
    forall path ensures PinningPath(heap, path, i) <==> PinningPath(heap', path, i) {
      PinnedStays(heap, heap', path, i);
    }
    if Pinned(heap, i) {
      var path :| PinningPath(heap, path, i);
      PinnedActive(heap', multiset{}, path, i);
    }
    if ActiveAt(heap', i) {
      TypedStays(heap, heap', h, table, leaves);
      KeptByImmortal(heap', multiset{}, h, table, leaves, [i]);
    }
  }

  lemma TypedStays(heap: Heap, heap': Heap, h: Hierarchy, table: FieldTable, leaves: set<string>)
    requires Typed(heap, h, table, leaves) && Evolves(heap, heap')
    ensures Typed(heap', h, table, leaves)
  {
    forall i: nat | ActiveAt(heap', i) ensures TypedAt(heap', i) && ClassedAt(heap', h, table, leaves, i) {
      assert ActiveAt(heap, i) && TypedAt(heap, i) && ClassedAt(heap, h, table, leaves, i);
    }
  }

  /** In particular everything mortal is freed when immortal objects refer to immortal
      objects only. */
  lemma NothingLeaks(heap: Heap, refs: seq<Ref>, h: Hierarchy, table: FieldTable, leaves: set<string>)
    requires Counted(heap, multiset(refs)) && Typed(heap, h, table, leaves)
    requires forall w :: !StrongClosedWalk(h, table, w)
    requires forall p: nat, o: nat :: PointsTo(heap, p, o) && heap[p].immortal ==> heap[o].immortal
    ensures var res := ReleaseAll(heap, refs);
      && res.Ok? && |res.heap| == |heap|
      && forall i: nat :: Mortal(heap, i) ==> res.heap[i].status.Freed?
  {
    LeaksExact(heap, refs, h, table, leaves);
    forall i: nat, path | PinningPath(heap, path, i) ensures i < |heap| && heap[i].immortal {
      OnlyImmortal(heap, path);
    }
  }

  lemma {:induction false} OnlyImmortal(heap: Heap, path: seq<nat>)
    requires Cascade.Walk(heap, path) && path[0] < |heap| && heap[path[0]].immortal
    requires forall p: nat, o: nat :: PointsTo(heap, p, o) && heap[p].immortal ==> heap[o].immortal
    ensures path[|path| - 1] < |heap| && heap[path[|path| - 1]].immortal
    decreases |path|
  {
    if |path| > 1 {
      var n := |path| - 1;
      assert Cascade.Walk(heap, path[..n]);
      OnlyImmortal(heap, path[..n]);
      assert PointsTo(heap, path[n - 1], path[n]);
    }
  }
}
