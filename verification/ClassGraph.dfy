/**
 The graph of strong references between classes, and what the build-time analyses say
 about it: fields inherited from superclasses, edges, walks and cycles.
 */
module ClassGraph {
  import opened Wrappers

  datatype Field = Field(name: string, target: string)

  /** Superclass of each analysed class. */
  type Hierarchy = map<string, Option<string>>

  /** The strong fields that each class declares. */
  type FieldTable = map<string, seq<Field>>

  type Graph = map<string, set<string>>

  function FieldsOf(table: FieldTable, cls: string): seq<Field> {
    if cls in table then table[cls] else []
  }

  function Super(h: Hierarchy, cls: string): Option<string> {
    if cls in h then h[cls] else None
  }

  /** The n-th superclass of cls, cls itself being number 0. */
  function Nth(h: Hierarchy, cls: string, n: nat): Option<string> {
    if n == 0 then Some(cls)
    else
      var below := Nth(h, cls, n - 1);
      if below.None? then None else Super(h, below.value)
  }

  ghost predicate IsAncestor(h: Hierarchy, cls: string, a: string) {
    exists n: nat :: n > 0 && Nth(h, cls, n) == Some(a)
  }

  /** The field is declared on the class or on one of its ancestors. */
  ghost predicate HasField(h: Hierarchy, table: FieldTable, cls: string, f: Field) {
    || f in FieldsOf(table, cls)
    || (cls in h && exists a :: IsAncestor(h, cls, a) && f in FieldsOf(table, a))
  }

  ghost predicate StrongEdge(h: Hierarchy, table: FieldTable, u: string, v: string) {
    exists f :: HasField(h, table, u, f) && f.target == v
  }

  predicate Edge(g: Graph, u: string, v: string) {
    u in g && v in g[u]
  }

  ghost predicate Walk(g: Graph, w: seq<string>) {
    forall j, k :: 0 <= j && k == j + 1 && k < |w| ==> Edge(g, w[j], w[k])
  }

  /** A walk of at least one step that comes back to where it started. */
  ghost predicate ClosedWalk(g: Graph, w: seq<string>) {
    |w| > 1 && Walk(g, w) && w[0] == w[|w| - 1]
  }

  /** A closed walk that visits no class twice. */
  ghost predicate SimpleCycle(g: Graph, w: seq<string>) {
    ClosedWalk(g, w) && Distinct(w[..|w| - 1])
  }

  ghost predicate Acyclic(g: Graph) {
    forall w :: !ClosedWalk(g, w)
  }

  /** A class reaches itself through strong fields, its own or inherited ones. */
  ghost predicate StrongClosedWalk(h: Hierarchy, table: FieldTable, w: seq<string>) {
    && |w| > 1 && w[0] == w[|w| - 1]
    && forall j, k :: 0 <= j && k == j + 1 && k < |w| ==> StrongEdge(h, table, w[j], w[k])
  }

  /** The classes that occur in the graph. */
  function Nodes(g: Graph): set<string> {
    g.Keys + set u, n | u in g && n in g[u] :: n
  }
}
