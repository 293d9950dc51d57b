/**
 The build-time retain-cycle check: strong fields are propagated from superclasses to
 subclasses, a graph is built from them, and a three-colour depth-first search reports
 every edge that leads back into the current path.
 */
module RetainCycles {
  import opened Wrappers
  import opened ClassGraph

  datatype Color = White | Gray | Black

  /** The edge from u to v is the last one of some reported cycle. */
  ghost predicate Closes(cycles: seq<seq<string>>, u: string, v: string) {
    exists c :: c in cycles && |c| > 1 && c[|c| - 2] == u && c[|c| - 1] == v
  }

  lemma ClosedBy(cycles: seq<seq<string>>, c: seq<string>)
    requires c in cycles && |c| > 1
    ensures Closes(cycles, c[|c| - 2], c[|c| - 1])
  {
  }

  lemma StillCloses(cycles: seq<seq<string>>, more: seq<seq<string>>, u: string, v: string)
    requires Closes(cycles, u, v) && cycles <= more
    ensures Closes(more, u, v)
  {
    var c :| c in cycles && |c| > 1 && c[|c| - 2] == u && c[|c| - 1] == v;
    assert c in more;
  }

  /** The edge from u to v is reported, or leads to a class that is finished. */
  ghost predicate Settled(cycles: seq<seq<string>>, finished: seq<string>, u: string, v: string) {
    v in finished || Closes(cycles, u, v)
  }

  /** Without the edges that close the reported cycles, every edge leads to an earlier class. */
  ghost predicate OrderedBut(g: Graph, order: seq<string>, cycles: seq<seq<string>>) {
    forall i, v :: 0 <= i < |order| && Edge(g, order[i], v) ==> Settled(cycles, order[..i], order[i], v)
  }

  /** From a class on the path to its end and back is a simple cycle. */
  lemma PathCloses(g: Graph, path: seq<string>, start: nat)
    requires Distinct(path) && Walk(g, path) && start < |path| && Edge(g, path[|path| - 1], path[start])
    ensures SimpleCycle(g, path[start..] + [path[start]])
  {
    var c := path[start..] + [path[start]];
    forall j, k | 0 <= j && k == j + 1 && k < |c| ensures Edge(g, c[j], c[k]) {
      if k < |path| - start {
        assert Edge(g, path[start + j], path[start + k]);
      }
    }
    assert c[..|c| - 1] == path[start..];
  }

  lemma OneMoreReport(g: Graph, order: seq<string>, cycles: seq<seq<string>>, c: seq<string>)
    requires OrderedBut(g, order, cycles)
    ensures OrderedBut(g, order, cycles + [c])
  {
    forall i, v | 0 <= i < |order| && Edge(g, order[i], v) ensures Settled(cycles + [c], order[..i], order[i], v) {
      if Closes(cycles, order[i], v) {
        StillCloses(cycles, cycles + [c], order[i], v);
      }
    }
  }

  /** The walk takes an edge that closes a reported cycle. */
  ghost predicate TakesClosing(cycles: seq<seq<string>>, w: seq<string>) {
    exists j, k :: 0 <= j && k == j + 1 && k < |w| && Closes(cycles, w[j], w[k])
  }

  /** A walk that takes no such edge stays strictly below where it starts. */
  lemma {:induction false} OpenDescends(g: Graph, order: seq<string>, cycles: seq<seq<string>>, w: seq<string>, i: nat)
    requires Distinct(order) && OrderedBut(g, order, cycles)
    requires |w| > 1 && Walk(g, w) && !TakesClosing(cycles, w) && i < |order| && order[i] == w[0]
    ensures w[|w| - 1] in order[..i]
  {
    assert Edge(g, w[0], w[1]) && !Closes(cycles, w[0], w[1]);
    assert Settled(cycles, order[..i], order[i], w[1]);
    var j :| 0 <= j < i && order[j] == w[1];
    if |w| > 2 {
      var rest := w[1..];
      RestOpen(g, cycles, w);
      OpenDescends(g, order, cycles, rest, j);
    }
  }

  lemma RestOpen(g: Graph, cycles: seq<seq<string>>, w: seq<string>)
    requires |w| > 1 && Walk(g, w) && !TakesClosing(cycles, w)
    ensures Walk(g, w[1..]) && !TakesClosing(cycles, w[1..])
  {
    forall a, b | 0 <= a && b == a + 1 && b < |w[1..]|
      ensures Edge(g, w[1..][a], w[1..][b]) && !Closes(cycles, w[1..][a], w[1..][b])
    {
      assert Edge(g, w[a + 1], w[b + 1]) && !Closes(cycles, w[a + 1], w[b + 1]);
    }
  }

  lemma ClosedIsTaken(g: Graph, order: seq<string>, cycles: seq<seq<string>>, w: seq<string>)
    requires Distinct(order) && OrderedBut(g, order, cycles) && (forall u :: u in g ==> u in order)
    requires ClosedWalk(g, w)
    ensures TakesClosing(cycles, w)
  {
    if !TakesClosing(cycles, w) {
      assert Edge(g, w[0], w[1]);
      var i :| 0 <= i < |order| && order[i] == w[0];
      OpenDescends(g, order, cycles, w, i);
      assert false;
    }
  }

  class CycleDetector {
    const graph: Graph
    var color: map<string, Color>
    var path: seq<string>
    var cycles: seq<seq<string>>
    ghost var finished: seq<string>

    constructor (graph: Graph)
      ensures this.graph == graph && Valid() && cycles == [] && path == []
      ensures forall n :: ColorOf(n).White?
    {
      this.graph := graph;
      color, path, cycles, finished := map[], [], [], [];
    }

    function ColorOf(n: string): Color
      reads this
    {
      if n in color then color[n] else White
    }

    ghost predicate Valid()
      reads this
    {
      && Distinct(path) && Walk(graph, path)
      && (forall n :: n in color ==> !color[n].White?)
      && (forall n :: n in path <==> ColorOf(n).Gray?)
      && Distinct(finished)
      && (forall n :: n in finished <==> ColorOf(n).Black?)
      && (forall c :: c in cycles ==> SimpleCycle(graph, c))
      && OrderedBut(graph, finished, cycles)
    }

    /** The classes that the search may still enter. */
    ghost function Unvisited(): set<string>
      reads this
    {
      Nodes(graph) - color.Keys
    }

    /** Colours only get darker, and what has been reported stays. */
    twostate predicate Advances()
      reads this
    {
      && old(cycles) <= cycles && old(finished) <= finished && old(color.Keys) <= color.Keys
      && forall n :: old(ColorOf(n)).Black? ==> ColorOf(n).Black?
    }

    method Dfs(node: string)
      requires Valid() && node in Unvisited()
      requires path == [] || Edge(graph, path[|path| - 1], node)
      modifies this
      ensures Valid() && Advances() && path == old(path) && ColorOf(node).Black?
      decreases Unvisited(), 0
    {
      Enter(node);
      ghost var succs := if node in graph then graph[node] else {};
      var todo := if node in graph then graph[node] else {};
      while todo != {}
        invariant Valid() && Advances() && path == old(path) + [node] && todo <= succs
        invariant node in color
        invariant forall n :: n in succs && n !in todo ==> Settled(cycles, finished, node, n)
        decreases todo
      {
        var neighbor :| neighbor in todo;
        todo := todo - {neighbor};
        assert Edge(graph, node, neighbor) && path[|path| - 1] == node;
        Visit(node, neighbor);
      }
      Leave(node);
    }

    /** Follows one edge out of the class at the end of the path. */
    method Visit(node: string, neighbor: string)
      requires Valid() && path != [] && path[|path| - 1] == node && Edge(graph, node, neighbor)
      modifies this
      ensures Valid() && Advances() && path == old(path)
      ensures Settled(cycles, finished, node, neighbor)
      decreases Unvisited(), 1
    {
      if ColorOf(neighbor).Gray? {
        ReportCycle(neighbor);
      } else if ColorOf(neighbor).White? {
        Dfs(neighbor);
      }
    }

    method Enter(node: string)
      requires Valid() && node in Unvisited()
      requires path == [] || Edge(graph, path[|path| - 1], node)
      modifies this`color, this`path
      ensures Valid() && Advances() && path == old(path) + [node]
      ensures Unvisited() == old(Unvisited()) - {node}
    {
      assert node !in path;
      color := color[node := Gray];
      path := path + [node];
      assert forall n :: n in path <==> n in old(path) || n == node;
      assert forall n :: ColorOf(n) == if n == node then Gray else old(ColorOf(n));
    }

    /** A neighbour on the current path closes a cycle. */
    method ReportCycle(neighbor: string)
      requires Valid() && path != [] && neighbor in path && Edge(graph, path[|path| - 1], neighbor)
      modifies this`cycles
      ensures Valid() && Advances() && Closes(cycles, path[|path| - 1], neighbor)
    {
      var start := IndexOf(path, neighbor);
      var cycle := path[start..] + [neighbor];
      ghost var before := cycles;
      PathCloses(graph, path, start);
      cycles := cycles + [cycle];
      ClosedBy(cycles, cycle);
      OneMoreReport(graph, finished, before, cycle);
    }

    method Leave(node: string)
      requires Valid() && path != [] && path[|path| - 1] == node
      requires forall n :: Edge(graph, node, n) ==> Settled(cycles, finished, node, n)
      modifies this
      ensures Valid() && Advances() && path == old(path)[..|old(path)| - 1] && cycles == old(cycles)
      ensures ColorOf(node).Black? && color.Keys == old(color.Keys)
    {
      assert node in path && node in color;
      ghost var order := finished;
      path := path[..|path| - 1];
      color := color[node := Black];
      finished := finished + [node];
      assert forall i :: 0 <= i < |order| ==> finished[..i] == order[..i];
      assert finished[..|order|] == order;
      assert forall n :: n in path <==> n in old(path) && n != node;
      assert forall n :: ColorOf(n) == if n == node then Black else old(ColorOf(n));
    }
  }

  method IndexOf(s: seq<string>, x: string) returns (i: nat)
    requires x in s
    ensures i < |s| && s[i] == x && x !in s[..i]
  {
    i := 0;
    while s[i] != x
      invariant i < |s| && x !in s[..i]
      decreases |s| - i
    {
      assert x in s[..i] + s[i..];
      i := i + 1;
    }
  }

  /** Every reported list is a simple cycle, and every closed walk takes the edge that closes
      one of them; so nothing is reported exactly when no class can reach itself. */
  method DetectCycles(graph: Graph) returns (cycles: seq<seq<string>>)
    ensures forall c :: c in cycles ==> SimpleCycle(graph, c)
    ensures forall w {:trigger TakesClosing(cycles, w)} :: ClosedWalk(graph, w) ==> TakesClosing(cycles, w)
    ensures cycles == [] <==> Acyclic(graph)
  {
    var detector := new CycleDetector(graph);
    var todo := graph.Keys;
    while todo != {}
      invariant detector.Valid() && detector.graph == graph && detector.path == []
      invariant todo <= graph.Keys
      invariant forall n :: n in graph && n !in todo ==> detector.ColorOf(n).Black?
      invariant fresh(detector)
      decreases todo
    {
      var node :| node in todo;
      todo := todo - {node};
      if detector.ColorOf(node).White? {
        detector.Dfs(node);
      }
    }
    cycles := detector.cycles;
    forall w | ClosedWalk(graph, w) ensures TakesClosing(cycles, w) {
      ClosedIsTaken(graph, detector.finished, cycles, w);
    }
    if cycles != [] {
      assert SimpleCycle(graph, cycles[0]);
    }
  }

  // ---------- inherited fields ----------

  /** A list that contains the superclass of cls and of each of its members contains
      every ancestor. */
  lemma {:induction false} ClosedHasAncestor(h: Hierarchy, cls: string, list: set<string>, n: nat)
    requires Super(h, cls).Some? ==> Super(h, cls).value in list
    requires forall a :: a in list && Super(h, a).Some? ==> Super(h, a).value in list
    requires n > 0 && Nth(h, cls, n).Some?
    ensures Nth(h, cls, n).value in list
  {
    if n > 1 {
      ClosedHasAncestor(h, cls, list, n - 1);
    }
  }

  /** Every name that is some class's superclass. */
  function Supers(h: Hierarchy): set<string> {
    set c | c in h && h[c].Some? :: h[c].value
  }

  /** The superclass chain, cut off where it repeats. */
  method GetAncestors(h: Hierarchy, cls: string) returns (ancestors: seq<string>)
    ensures forall a :: a in ancestors <==> IsAncestor(h, cls, a)
  {
    ancestors := [];
    var current := Super(h, cls);
    var visited: set<string> := {};
    ghost var n := 1;
    while current.Some? && current.value !in visited
      invariant forall a :: a in ancestors <==> a in visited
      invariant n > 0 && current == Nth(h, cls, n)
      invariant current.Some? ==> current.value in Supers(h)
      invariant forall a :: a in visited ==> IsAncestor(h, cls, a)
      invariant forall a :: a in visited + {cls} ==>
                  Super(h, a) == current || (Super(h, a).Some? && Super(h, a).value in visited)
      decreases Supers(h) - visited
    {
      visited := visited + {current.value};
      ancestors := ancestors + [current.value];
      n := n + 1;
      current := Super(h, current.value);
    }
    forall a | IsAncestor(h, cls, a) ensures a in visited {
      var k: nat :| k > 0 && Nth(h, cls, k) == Some(a);
      ClosedHasAncestor(h, cls, visited, k);
    }
  }

  /** Adds to a class's fields those of an ancestor that it does not have yet. */
  method AddMissing(own: seq<Field>, inherited: seq<Field>) returns (all: seq<Field>)
    ensures forall f :: f in all <==> f in own || f in inherited
  {
    all := own;
    for i := 0 to |inherited|
      invariant forall f :: f in all <==> f in own || f in inherited[..i]
    {
      if inherited[i] !in all {
        all := all + [inherited[i]];
      }
    }
  }

  method InheritedFields(h: Hierarchy, table: FieldTable, cls: string) returns (all: seq<Field>)
    ensures forall f :: f in all <==>
              f in FieldsOf(table, cls) || exists a :: IsAncestor(h, cls, a) && f in FieldsOf(table, a)
  {
    var ancestors := GetAncestors(h, cls);
    all := FieldsOf(table, cls);
    for i := 0 to |ancestors|
      invariant forall f :: f in all <==>
                  f in FieldsOf(table, cls) || exists a :: a in ancestors[..i] && f in FieldsOf(table, a)
    {
      all := AddMissing(all, FieldsOf(table, ancestors[i]));
      assert ancestors[..i + 1] == ancestors[..i] + [ancestors[i]];
    }
    assert ancestors[..|ancestors|] == ancestors;
  }

  /** Propagates strong fields down the inheritance chain. */
  method ResolveInheritance(h: Hierarchy, table: FieldTable) returns (expanded: FieldTable)
    ensures forall cls, f :: f in FieldsOf(expanded, cls) <==> HasField(h, table, cls, f)
  {
    expanded := table;
    var todo := h.Keys;
    while todo != {}
      invariant todo <= h.Keys
      invariant forall cls, f :: f in FieldsOf(expanded, cls) <==>
                  if cls in todo then f in FieldsOf(table, cls) else HasField(h, table, cls, f)
      decreases todo
    {
      var cls :| cls in todo;
      todo := todo - {cls};
      var all := InheritedFields(h, table, cls);
      expanded := expanded[cls := all];
    }
  }

  method BuildGraph(table: FieldTable) returns (g: Graph)
    ensures forall u, v :: Edge(g, u, v) <==> exists f :: f in FieldsOf(table, u) && f.target == v
  {
    g := map[];
    var todo := table.Keys;
    while todo != {}
      invariant todo <= table.Keys
      invariant forall u, v :: Edge(g, u, v) <==> u !in todo && exists f :: f in FieldsOf(table, u) && f.target == v
      decreases todo
    {
      var cls :| cls in todo;
      todo := todo - {cls};
      var targets := Targets(table[cls]);
      ghost var before := g;
      g := g[cls := targets];
      forall u, v ensures Edge(g, u, v) <==> u !in todo && exists f :: f in FieldsOf(table, u) && f.target == v {
        if u != cls {
          assert Edge(g, u, v) <==> Edge(before, u, v);
        }
      }
    }
  }

  method Targets(fields: seq<Field>) returns (targets: set<string>)
    ensures forall v :: v in targets <==> exists f :: f in fields && f.target == v
  {
    targets := {};
    for i := 0 to |fields|
      invariant forall v :: v in targets <==> exists f :: f in fields[..i] && f.target == v
    {
      targets := targets + {fields[i].target};
      assert fields[..i + 1] == fields[..i] + [fields[i]];
    }
    assert fields[..|fields|] == fields;
  }

  // ---------- reporting ----------

  /** The order of class names: by character code, a prefix before its extensions. */
  predicate Before(a: string, b: string) {
    b != [] && (a == [] || a[0] < b[0] || (a[0] == b[0] && Before(a[1..], b[1..])))
  }

  lemma {:induction false} BeforeTotal(a: string, b: string)
    ensures a != b ==> Before(a, b) || Before(b, a)
    ensures !(Before(a, b) && Before(b, a))
  {
    if a != [] && b != [] && a[0] == b[0] {
      BeforeTotal(a[1..], b[1..]);
      assert a == [a[0]] + a[1..] && b == [b[0]] + b[1..];
    }
  }

  lemma {:induction false} BeforeTransitive(a: string, b: string, c: string)
    requires Before(a, b) && Before(b, c)
    ensures Before(a, c)
  {
    if a != [] && a[0] == b[0] == c[0] {
      BeforeTransitive(a[1..], b[1..], c[1..]);
    }
  }

  function Rotate(s: seq<string>, k: nat): seq<string>
    requires k <= |s|
  {
    s[k..] + s[..k]
  }

  ghost predicate IsRotation(s: seq<string>, t: seq<string>) {
    exists k: nat :: k <= |s| && t == Rotate(s, k)
  }

  /** Position i holds the smallest name. */
  ghost predicate IsLeast(s: seq<string>, i: nat) {
    i < |s| && forall j :: 0 <= j < |s| ==> !Before(s[j], s[i])
  }

  method LeastIndex(s: seq<string>) returns (least: nat)
    requires s != []
    ensures IsLeast(s, least)
  {
    least := 0;
    BeforeTotal(s[0], s[0]);
    for i := 1 to |s|
      invariant least < i
      invariant forall j :: 0 <= j < i ==> !Before(s[j], s[least])
    {
      if Before(s[i], s[least]) {
        forall j | 0 <= j < i ensures !Before(s[j], s[i]) {
          if Before(s[j], s[i]) {
            BeforeTransitive(s[j], s[i], s[least]);
          }
        }
        least := i;
      }
      BeforeTotal(s[i], s[i]);
    }
  }

  lemma RotateRotate(s: seq<string>, i: nat, k: nat)
    requires i <= |s| && k <= |s|
    ensures Rotate(Rotate(s, i), k) == Rotate(s, if i + k <= |s| then i + k else i + k - |s|)
  {
    var once := Rotate(s, i);
    if i + k <= |s| {
      assert once[k..] == s[i + k..] + s[..i] && once[..k] == s[i..i + k];
      assert s[..i] + s[i..i + k] == s[..i + k];
    } else {
      assert once[k..] == s[i + k - |s|..i] && once[..k] == s[i..] + s[..i + k - |s|];
      assert s[i + k - |s|..i] + s[i..] == s[i + k - |s|..];
    }
  }

  /** Rotating two loops of distinct names to their smallest name makes them equal if
      and only if one is a rotation of the other. */
  lemma NormalFormsAgree(s: seq<string>, i: nat, t: seq<string>, j: nat)
    requires Distinct(s) && Distinct(t) && IsLeast(s, i) && IsLeast(t, j)
    ensures Rotate(s, i) == Rotate(t, j) <==> IsRotation(s, t)
  {
    if Rotate(s, i) == Rotate(t, j) {
      assert |s| == |Rotate(s, i)| == |t|;
      RotateRotate(s, i, |t| - j);
    }
    if IsRotation(s, t) {
      var k: nat :| k <= |s| && t == Rotate(s, k);
      RotationLeast(s, i, k, j);
      RotateRotate(s, k, j);
    }
  }

  /** The smallest name of a rotation is the smallest name of the loop. */
  lemma RotationLeast(s: seq<string>, i: nat, k: nat, j: nat)
    requires Distinct(s) && k <= |s| && IsLeast(s, i) && IsLeast(Rotate(s, k), j)
    ensures i == if j + k < |s| then j + k else j + k - |s|
  {
    var t := Rotate(s, k);
    var m := if j + k < |s| then j + k else j + k - |s|;
    var back := if i >= k then i - k else i + |s| - k;
    assert t[j] == s[m] && t[back] == s[i];
    BeforeTotal(s[i], s[m]);
  }

  /** The classes of a reported cycle, each once. */
  function LoopOf(cycle: seq<string>): seq<string> {
    if cycle == [] then [] else cycle[..|cycle| - 1]
  }

  ghost predicate IsLoop(cycle: seq<string>) {
    |cycle| > 1 && Distinct(LoopOf(cycle))
  }

  /** What the set of normal forms seen so far says about the kept cycles. */
  ghost predicate SeenNormals(unique: seq<seq<string>>, keys: seq<nat>, seen: set<seq<string>>) {
    && |keys| == |unique|
    && (forall a :: 0 <= a < |unique| ==>
          IsLoop(unique[a]) && IsLeast(LoopOf(unique[a]), keys[a]) && Rotate(LoopOf(unique[a]), keys[a]) in seen)
    && (forall s :: s in seen ==> IsNormal(s, unique, keys))
  }

  ghost predicate IsNormal(s: seq<string>, unique: seq<seq<string>>, keys: seq<nat>)
    requires |keys| == |unique|
  {
    exists a :: 0 <= a < |unique| && keys[a] <= |LoopOf(unique[a])| && Rotate(LoopOf(unique[a]), keys[a]) == s
  }

  lemma SeenMeansRotation(unique: seq<seq<string>>, keys: seq<nat>, seen: set<seq<string>>,
                          loop: seq<string>, least: nat)
    requires SeenNormals(unique, keys, seen) && Distinct(loop) && IsLeast(loop, least)
    ensures Rotate(loop, least) in seen <==>
            exists a :: 0 <= a < |unique| && IsRotation(LoopOf(unique[a]), loop)
  {
    forall a | 0 <= a < |unique|
      ensures Rotate(LoopOf(unique[a]), keys[a]) == Rotate(loop, least) <==> IsRotation(LoopOf(unique[a]), loop)
    {
      NormalFormsAgree(LoopOf(unique[a]), keys[a], loop, least);
    }
  }

  /** No two of the cycles are rotations of each other. */
  ghost predicate NoRotations(unique: seq<seq<string>>) {
    forall a, b :: 0 <= a < b < |unique| ==> !IsRotation(LoopOf(unique[a]), LoopOf(unique[b]))
  }

  /** Each of the cycles is a rotation of a kept one. */
  ghost predicate Represents(unique: seq<seq<string>>, cycles: seq<seq<string>>) {
    forall c :: c in cycles ==> exists a :: 0 <= a < |unique| && IsRotation(LoopOf(unique[a]), LoopOf(c))
  }

  /** The exit code, and one representative of each group of rotations. */
  method ReportCycles(cycles: seq<seq<string>>) returns (exitCode: nat, unique: seq<seq<string>>)
    requires forall c :: c in cycles ==> IsLoop(c)
    ensures exitCode == (if cycles == [] then 0 else 1) && (cycles == [] <==> unique == [])
    ensures forall c :: c in unique ==> c in cycles
    ensures NoRotations(unique) && Represents(unique, cycles)
  {
    unique := [];
    if cycles == [] {
      return 0, [];
    }
    exitCode := 1;
    var seen: set<seq<string>> := {};
    ghost var keys: seq<nat> := [];
    for i := 0 to |cycles|
      invariant forall c :: c in unique ==> c in cycles
      invariant SeenNormals(unique, keys, seen)
      invariant NoRotations(unique) && Represents(unique, cycles[..i])
      invariant i > 0 ==> unique != []
    {
      assert cycles[..i + 1] == cycles[..i] + [cycles[i]];
      assert IsLoop(cycles[i]);
      var loop := LoopOf(cycles[i]);
      var least := LeastIndex(loop);
      SeenMeansRotation(unique, keys, seen, loop, least);
      if Rotate(loop, least) !in seen {
        SeenAfter(unique, keys, seen, cycles[i], least);
        NoRotationsAfter(unique, cycles[i]);
        RepresentsAfter(unique, cycles[i], cycles[..i]);
        seen := seen + {Rotate(loop, least)};
        unique := unique + [cycles[i]];
        keys := keys + [least];
      } else {
        ghost var a :| 0 <= a < |unique| && IsRotation(LoopOf(unique[a]), loop);
        RepresentsSeen(unique, cycles[i], cycles[..i], a);
      }
    }
    assert cycles[..|cycles|] == cycles;
  }

  // Adding a cycle whose normal form is new.

  lemma SeenAfter(unique: seq<seq<string>>, keys: seq<nat>, seen: set<seq<string>>, cycle: seq<string>, least: nat)
    requires SeenNormals(unique, keys, seen) && IsLoop(cycle) && IsLeast(LoopOf(cycle), least)
    ensures SeenNormals(unique + [cycle], keys + [least], seen + {Rotate(LoopOf(cycle), least)})
  {
    var unique', keys' := unique + [cycle], keys + [least];
    assert unique'[|unique|] == cycle && keys'[|unique|] == least;
    forall a | 0 <= a < |unique'|
      ensures IsLoop(unique'[a]) && IsLeast(LoopOf(unique'[a]), keys'[a])
      ensures Rotate(LoopOf(unique'[a]), keys'[a]) in seen + {Rotate(LoopOf(cycle), least)}
    {
      if a < |unique| {
        assert unique'[a] == unique[a] && keys'[a] == keys[a];
      }
    }
    forall s | s in seen ensures IsNormal(s, unique', keys') {
      assert IsNormal(s, unique, keys);
      var a :| 0 <= a < |unique| && keys[a] <= |LoopOf(unique[a])| && Rotate(LoopOf(unique[a]), keys[a]) == s;
      assert unique'[a] == unique[a] && keys'[a] == keys[a];
    }
  }

  lemma RepresentsSeen(unique: seq<seq<string>>, cycle: seq<string>, before: seq<seq<string>>, a: nat)
    requires Represents(unique, before)
    requires a < |unique| && IsRotation(LoopOf(unique[a]), LoopOf(cycle))
    ensures Represents(unique, before + [cycle])
  {
  }

  lemma NoRotationsAfter(unique: seq<seq<string>>, cycle: seq<string>)
    requires NoRotations(unique)
    requires forall a :: 0 <= a < |unique| ==> !IsRotation(LoopOf(unique[a]), LoopOf(cycle))
    ensures NoRotations(unique + [cycle])
  {
    var unique' := unique + [cycle];
    forall a, b | 0 <= a < b < |unique'| ensures !IsRotation(LoopOf(unique'[a]), LoopOf(unique'[b])) {
      assert unique'[a] == unique[a] && unique'[b] == if b < |unique| then unique[b] else cycle;
    }
  }

  lemma RepresentsAfter(unique: seq<seq<string>>, cycle: seq<string>, before: seq<seq<string>>)
    requires Represents(unique, before)
    ensures Represents(unique + [cycle], before + [cycle])
  {
    var unique' := unique + [cycle];
    assert LoopOf(cycle) == Rotate(LoopOf(cycle), 0) && unique'[|unique|] == cycle;
    forall c | c in before
      ensures exists a :: 0 <= a < |unique'| && IsRotation(LoopOf(unique'[a]), LoopOf(c))
    {
      var a :| 0 <= a < |unique| && IsRotation(LoopOf(unique[a]), LoopOf(c));
      assert unique'[a] == unique[a];
    }
  }

  // ---------- what the kept reports cover ----------

  ghost predicate HasEdge(c: seq<string>, u: string, v: string) {
    exists j, k :: 0 <= j && k == j + 1 && k < |c| && c[j] == u && c[k] == v
  }

  /** The walk has an edge in common with one of the cycles. */
  ghost predicate SharesEdge(cycles: seq<seq<string>>, w: seq<string>) {
    exists c, j, k :: c in cycles && 0 <= j && k == j + 1 && k < |w| && HasEdge(c, w[j], w[k])
  }

  /** A list of distinct names that comes back to the first. */
  ghost predicate Returns(c: seq<string>) {
    IsLoop(c) && c[0] == c[|c| - 1]
  }

  /** The edge that closes a cycle is an edge of every rotation of it. */
  lemma ClosingRotated(c: seq<string>, d: seq<string>)
    requires Returns(c) && Returns(d) && IsRotation(LoopOf(d), LoopOf(c))
    ensures HasEdge(d, c[|c| - 2], c[|c| - 1])
  {
    var loop, other := LoopOf(c), LoopOf(d);
    var k: nat :| k <= |other| && loop == Rotate(other, k);
    var m := |other|;
    assert |loop| == m && c[m - 1] == loop[m - 1] && c[m] == loop[0];
    var j := if 0 < k < m then k - 1 else m - 1;
    assert d[j] == loop[m - 1] && d[j + 1] == loop[0];
  }

  lemma SharedWithOne(cycles: seq<seq<string>>, w: seq<string>)
    ensures SharesEdge(cycles, w) ==> cycles != []
  {
  }

  lemma TakenIsShared(unique: seq<seq<string>>, cycles: seq<seq<string>>, w: seq<string>)
    requires Represents(unique, cycles) && TakesClosing(cycles, w)
    requires (forall c :: c in cycles ==> Returns(c)) && (forall c :: c in unique ==> c in cycles)
    ensures SharesEdge(unique, w)
  {
    var j, k :| 0 <= j && k == j + 1 && k < |w| && Closes(cycles, w[j], w[k]);
    var c :| c in cycles && |c| > 1 && c[|c| - 2] == w[j] && c[|c| - 1] == w[k];
    var a :| 0 <= a < |unique| && IsRotation(LoopOf(unique[a]), LoopOf(c));
    assert unique[a] in unique;
    ClosingRotated(c, unique[a]);
  }

  /** The whole check: it fails exactly when some class can reach itself through strong
      fields that it or one of its ancestors declares; no two of the cycles it reports are
      the same, and every such way shares an edge with one of them. */
  method CheckRetainCycles(h: Hierarchy, table: FieldTable) returns (exitCode: nat, unique: seq<seq<string>>)
    ensures exitCode == 0 || exitCode == 1
    ensures exitCode == 1 <==> exists w :: StrongClosedWalk(h, table, w)
    ensures forall c :: c in unique ==> StrongClosedWalk(h, table, c) && IsLoop(c)
    ensures NoRotations(unique)
    ensures forall w {:trigger SharesEdge(unique, w)} :: StrongClosedWalk(h, table, w) ==> SharesEdge(unique, w)
  {
    if table == map[] {
      NothingDeclared(h, table);
      return 0, [];
    }
    var graph := StrongGraph(h, table);
    exitCode, unique := CheckGraph(graph);
    SameReport(graph, h, table, exitCode, unique);
  }

  lemma NothingDeclared(h: Hierarchy, table: FieldTable)
    requires table == map[]
    ensures forall w :: !StrongClosedWalk(h, table, w)
  {
    forall w | |w| > 1 ensures !StrongClosedWalk(h, table, w) {
      assert !StrongEdge(h, table, w[0], w[1]);
    }
  }

  method StrongGraph(h: Hierarchy, table: FieldTable) returns (graph: Graph)
    ensures forall u, v :: Edge(graph, u, v) <==> StrongEdge(h, table, u, v)
  {
    var expanded := ResolveInheritance(h, table);
    graph := BuildGraph(expanded);
    forall u, v ensures Edge(graph, u, v) <==> StrongEdge(h, table, u, v) {}
  }

  /** The report on a graph. */
  ghost predicate Reported(g: Graph, exitCode: nat, unique: seq<seq<string>>) {
    && exitCode == (if unique == [] then 0 else 1) && NoRotations(unique)
    && (forall c :: c in unique ==> SimpleCycle(g, c))
    && (forall w {:trigger SharesEdge(unique, w)} :: ClosedWalk(g, w) ==> SharesEdge(unique, w))
  }

  method CheckGraph(graph: Graph) returns (exitCode: nat, unique: seq<seq<string>>)
    ensures Reported(graph, exitCode, unique)
  {
    var cycles := DetectCycles(graph);
    exitCode, unique := ReportCycles(cycles);
    AllShared(graph, unique, cycles);
  }

  lemma AllShared(g: Graph, unique: seq<seq<string>>, cycles: seq<seq<string>>)
    requires Represents(unique, cycles) && forall c :: c in unique ==> c in cycles
    requires forall c :: c in cycles ==> SimpleCycle(g, c)
    requires forall w {:trigger TakesClosing(cycles, w)} :: ClosedWalk(g, w) ==> TakesClosing(cycles, w)
    ensures forall w {:trigger SharesEdge(unique, w)} :: ClosedWalk(g, w) ==> SharesEdge(unique, w)
  {
    forall c | c in cycles ensures Returns(c) {
      SimpleReturns(g, c);
    }
    forall w | ClosedWalk(g, w) ensures SharesEdge(unique, w) {
      assert TakesClosing(cycles, w);
      TakenIsShared(unique, cycles, w);
    }
  }

  lemma SimpleReturns(g: Graph, c: seq<string>)
    requires SimpleCycle(g, c)
    ensures Returns(c)
  {
  }

  lemma SameReport(g: Graph, h: Hierarchy, table: FieldTable, exitCode: nat, unique: seq<seq<string>>)
    requires (forall u, v :: Edge(g, u, v) <==> StrongEdge(h, table, u, v)) && Reported(g, exitCode, unique)
    ensures exitCode == 1 <==> exists w :: StrongClosedWalk(h, table, w)
    ensures forall c :: c in unique ==> StrongClosedWalk(h, table, c) && IsLoop(c)
    ensures forall w {:trigger SharesEdge(unique, w)} :: StrongClosedWalk(h, table, w) ==> SharesEdge(unique, w)
  {
    forall w ensures ClosedWalk(g, w) <==> StrongClosedWalk(h, table, w) {
      SameWalk(g, h, table, w);
    }
    if unique != [] {
      assert unique[0] in unique;
      SimpleReturns(g, unique[0]);
    } else {
      forall w ensures !StrongClosedWalk(h, table, w) {
        SharedWithOne(unique, w);
      }
    }
    forall c | c in unique ensures IsLoop(c) {
      SimpleReturns(g, c);
    }
  }

  lemma SameWalk(g: Graph, h: Hierarchy, table: FieldTable, w: seq<string>)
    requires forall u, v :: Edge(g, u, v) <==> StrongEdge(h, table, u, v)
    ensures ClosedWalk(g, w) <==> StrongClosedWalk(h, table, w)
  {
  }
}
