/**
 The retain-cycle check rejects nothing harmless: whenever classes form a cycle, there is a
 heap of their objects that stays when every outside reference has been given up.
 */
module LeakCheck {
  import opened Wrappers
  import opened ObjectHeap
  import opened Cascade
  import opened ClassGraph
  import opened NoLeaks

  /** The strong ivars that the tables give a class. */
  function Ivars(fields: seq<Field>): seq<Ivar> {
    seq(|fields|, k requires 0 <= k < |fields| => Ivar(fields[k].name, fields[k].target))
  }

  /** Superclass chains end. */
  ghost predicate Ranked(h: Hierarchy, rank: string -> nat) {
    forall c :: Super(h, c).Some? ==> rank(Super(h, c).value) < rank(c)
  }

  /** The class that the tables describe. */
  ghost function Build(h: Hierarchy, table: FieldTable, rank: string -> nat, name: string): Class
    requires Ranked(h, rank)
    decreases rank(name)
  {
    if Super(h, name).None? then Root(name, Ivars(FieldsOf(table, name)))
    else Sub(name, Ivars(FieldsOf(table, name)), Build(h, table, rank, Super(h, name).value))
  }

  lemma {:induction false} BuildDeclared(h: Hierarchy, table: FieldTable, leaves: set<string>, rank: string -> nat,
                                         name: string)
    requires Ranked(h, rank)
    ensures Declared(h, table, leaves, Build(h, table, rank, name)) && Build(h, table, rank, name).name == name
    decreases rank(name)
  {
    if Super(h, name).Some? {
      BuildDeclared(h, table, leaves, rank, Super(h, name).value);
    }
  }

  /** A field of a class or an ancestor is an ivar of its objects. */
  lemma {:induction false} FieldIsSlot(h: Hierarchy, table: FieldTable, rank: string -> nat, name: string, n: nat,
                                       f: Field)
      returns (k: nat)
    requires Ranked(h, rank) && Nth(h, name, n).Some? && f in FieldsOf(table, Nth(h, name, n).value)
    ensures var slots := Slots(Build(h, table, rank, name)); k < |slots| && slots[k] == Ivar(f.name, f.target)
    decreases n
  {
    var own := FieldsOf(table, name);
    if n == 0 {
      k :| 0 <= k < |own| && own[k] == f;
    } else {
      SuperFirst(h, name, n);
      NthShift(h, name, Super(h, name).value, n - 1);
      k := FieldIsSlot(h, table, rank, Super(h, name).value, n - 1, f);
      k := k + |own|;
    }
  }

  lemma {:induction false} SuperFirst(h: Hierarchy, name: string, n: nat)
    requires n > 0 && Nth(h, name, n).Some?
    ensures Super(h, name).Some?
  {
    if n > 1 {
      SuperFirst(h, name, n - 1);
    } else {
      assert Nth(h, name, 0) == Some(name);
    }
  }

  lemma EdgeIsSlot(h: Hierarchy, table: FieldTable, rank: string -> nat, u: string, v: string) returns (k: nat)
    requires Ranked(h, rank) && StrongEdge(h, table, u, v)
    ensures var slots := Slots(Build(h, table, rank, u)); k < |slots| && slots[k].target == v
  {
    var f :| HasField(h, table, u, f) && f.target == v;
    if f in FieldsOf(table, u) {
      k := FieldIsSlot(h, table, rank, u, 0, f);
    } else {
      var a :| IsAncestor(h, u, a) && f in FieldsOf(table, a);
      var n: nat :| n > 0 && Nth(h, u, n) == Some(a);
      k := FieldIsSlot(h, table, rank, u, n, f);
    }
  }

  // ---------- a ring of objects ----------

  function Next(n: nat, j: nat): nat {
    if j + 1 == n then 0 else j + 1
  }

  ghost function SlotTo(slots: seq<Ivar>, target: string): nat {
    if k: nat :| k < |slots| && slots[k].target == target then k else 0
  }

  function OneField(size: nat, k: nat, r: Ref): seq<Ref> {
    seq(size, i => if i == k then r else Nil)
  }

  lemma OneFieldCounts(size: nat, k: nat, r: Ref, x: Ref)
    requires k < size && x.Obj?
    ensures multiset(OneField(size, k, r))[x] == if x == r then 1 else 0
  {
    var nils := seq(size, _ => Nil);
    assert OneField(size, k, r) == nils[k := r];
    assert x !in nils;
  }

  /** One object of each class of the walk, each referring to the next, the last one to the
      first, which is also held outside. */
  ghost function Ring(h: Hierarchy, table: FieldTable, rank: string -> nat, w: seq<string>): Heap
    requires Ranked(h, rank) && |w| > 1
  {
    seq(|w| - 1, j requires 0 <= j < |w| - 1 => RingCell(h, table, rank, w, j))
  }

  ghost function RingCell(h: Hierarchy, table: FieldTable, rank: string -> nat, w: seq<string>, j: nat): Cell
    requires Ranked(h, rank) && j < |w| - 1
  {
    var cls := Build(h, table, rank, w[j]);
    var k := SlotTo(Slots(cls), w[j + 1]);
    Cell(cls, if j == 0 then 2 else 1, OneField(|Slots(cls)|, k, Obj(Next(|w| - 1, j))), false, Active)
  }

  /** Cell j refers to its successor, once, through an ivar declared for it. */
  lemma RingCellRight(h: Hierarchy, table: FieldTable, rank: string -> nat, w: seq<string>, j: nat)
    requires Ranked(h, rank) && j < |w| - 1 && StrongEdge(h, table, w[j], w[j + 1])
    ensures var cell := RingCell(h, table, rank, w, j); var slots := Slots(cell.cls);
      && |cell.fields| == |slots|
      && (forall k :: 0 <= k < |slots| && cell.fields[k].Obj? ==>
            cell.fields[k].id == Next(|w| - 1, j) && slots[k].target == w[j + 1])
      && (forall x: Ref :: x.Obj? ==> multiset(cell.fields)[x] == if x.id == Next(|w| - 1, j) then 1 else 0)
  {
    var cell := RingCell(h, table, rank, w, j);
    var k := EdgeIsSlot(h, table, rank, w[j], w[j + 1]);
    assert cell.cls == Build(h, table, rank, w[j]);
    forall x: Ref | x.Obj? ensures multiset(cell.fields)[x] == if x.id == Next(|w| - 1, j) then 1 else 0 {
      OneFieldCounts(|Slots(cell.cls)|, SlotTo(Slots(cell.cls), w[j + 1]), Obj(Next(|w| - 1, j)), x);
    }
  }

  /** The only reference to object i among the first m cells is its predecessor's. */
  lemma {:induction false} RingRefs(h: Hierarchy, table: FieldTable, rank: string -> nat, w: seq<string>, m: nat,
                                    i: nat)
    requires Ranked(h, rank) && StrongClosedWalk(h, table, w) && m < |w|
    ensures var n := |w| - 1; var before := if i == 0 then n - 1 else i - 1;
      RefsUpTo(Ring(h, table, rank, w), m, NoHole, Obj(i)) == if i < n && before < m then 1 else 0
  {
    if m > 0 {
      RingRefs(h, table, rank, w, m - 1, i);
      RingCellRight(h, table, rank, w, m - 1);
      assert CellRefs(Ring(h, table, rank, w), m - 1, NoHole) ==
             multiset(RingCell(h, table, rank, w, m - 1).fields);
    }
  }

  lemma RingCounted(h: Hierarchy, table: FieldTable, rank: string -> nat, w: seq<string>)
    requires Ranked(h, rank) && StrongClosedWalk(h, table, w)
    ensures Counted(Ring(h, table, rank, w), multiset{Obj(0)})
  {
    var heap := Ring(h, table, rank, w);
    forall j | 0 <= j < |heap| ensures |heap[j].fields| == |Slots(heap[j].cls)| {
      RingCellRight(h, table, rank, w, j);
    }
    forall i: nat ensures CountedAt(heap, multiset{Obj(0)}, NoHole, i) {
      RingCountedAt(h, table, rank, w, i);
    }
  }

  lemma RingCountedAt(h: Hierarchy, table: FieldTable, rank: string -> nat, w: seq<string>, i: nat)
    requires Ranked(h, rank) && StrongClosedWalk(h, table, w)
    ensures CountedAt(Ring(h, table, rank, w), multiset{Obj(0)}, NoHole, i)
  {
    RingRefs(h, table, rank, w, |w| - 1, i);
  }

  lemma RingTyped(h: Hierarchy, table: FieldTable, leaves: set<string>, rank: string -> nat, w: seq<string>)
    requires Ranked(h, rank) && StrongClosedWalk(h, table, w) && LeftOut(h, table, leaves)
    ensures Typed(Ring(h, table, rank, w), h, table, leaves)
  {
    var heap := Ring(h, table, rank, w);
    forall j: nat | ActiveAt(heap, j) ensures TypedAt(heap, j) && ClassedAt(heap, h, table, leaves, j) {
      RingCellRight(h, table, rank, w, j);
      BuildDeclared(h, table, leaves, rank, w[j]);
      BuildDeclared(h, table, leaves, rank, w[Next(|w| - 1, j)]);
      assert StrongEdge(h, table, w[j], w[j + 1]);
    }
  }

  /** The analysis knows nothing of the classes it leaves out. */
  ghost predicate LeftOut(h: Hierarchy, table: FieldTable, leaves: set<string>) {
    forall c :: c in leaves ==> c !in h && c !in table
  }

  /** Object 0 is left over. */
  lemma RingStays(h: Hierarchy, table: FieldTable, rank: string -> nat, w: seq<string>)
    requires Ranked(h, rank) && |w| > 1
    ensures var heap := Ring(h, table, rank, w); var res := ReleaseAll(heap, [Obj(0)]);
      && res.Ok? && |res.heap| == |heap| && Mortal(heap, 0) && !Pinned(heap, 0) && !res.heap[0].status.Freed?
  {
    var heap := Ring(h, table, rank, w);
    assert [Obj(0)][..0] == [];
    assert ReleaseAll(heap, []) == Ok(heap);
    assert heap[0].rc == 2;
  }

  /** Some heap of a program with these classes keeps an object that neither the outside nor
      an immortal object refers to, directly or not. */
  ghost predicate CanLeak(h: Hierarchy, table: FieldTable, leaves: set<string>) {
    exists heap, refs, i :: Leaks(heap, refs, h, table, leaves, i)
  }

  ghost predicate Leaks(heap: Heap, refs: seq<Ref>, h: Hierarchy, table: FieldTable, leaves: set<string>, i: nat) {
    && Counted(heap, multiset(refs)) && Typed(heap, h, table, leaves) && Mortal(heap, i) && !Pinned(heap, i)
    && var res := ReleaseAll(heap, refs); res.Ok? && |res.heap| == |heap| && !res.heap[i].status.Freed?
  }

  /** The cycles that the check looks for are exactly what makes leaks possible. */
  lemma CycleMeansLeak(h: Hierarchy, table: FieldTable, leaves: set<string>, rank: string -> nat)
    requires Ranked(h, rank) && LeftOut(h, table, leaves)
    ensures CanLeak(h, table, leaves) <==> exists w :: StrongClosedWalk(h, table, w)
  {
    if w :| StrongClosedWalk(h, table, w) {
      RingCounted(h, table, rank, w);
      RingTyped(h, table, leaves, rank, w);
      RingStays(h, table, rank, w);
      assert multiset([Obj(0)]) == multiset{Obj(0)};
      assert Leaks(Ring(h, table, rank, w), [Obj(0)], h, table, leaves, 0);
    } else {
      forall heap, refs, i ensures !Leaks(heap, refs, h, table, leaves, i) {
        NoCycleNoLeak(heap, refs, h, table, leaves, i);
      }
    }
  }

  lemma NoCycleNoLeak(heap: Heap, refs: seq<Ref>, h: Hierarchy, table: FieldTable, leaves: set<string>, i: nat)
    requires forall w :: !StrongClosedWalk(h, table, w)
    ensures !Leaks(heap, refs, h, table, leaves, i)
  {
    if Counted(heap, multiset(refs)) && Typed(heap, h, table, leaves) {
      LeaksExact(heap, refs, h, table, leaves);
    }
  }
}
