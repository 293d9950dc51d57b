/**
 Hierarchy resolution in the transpiler: validating the superclass chains, numbering the
 classes, computing their depths, and ordering +initialize.
 */
module Resolve {
  import opened Wrappers
  import opened Hierarchy

  /** A listing of the classes of a module, in some order, each once. */
  ghost predicate Lists(order: seq<string>, cs: Classes) {
    && (forall i :: 0 <= i < |order| ==> order[i] in cs)
    && (forall c :: c in cs ==> c in order)
    && Distinct(order)
  }

  /** The ids given so far are the positions in a list. */
  ghost predicate Numbers(ids: map<string, nat>, list: seq<string>) {
    && (forall i {:trigger list[i]} :: 0 <= i < |list| ==> list[i] in ids && ids[list[i]] == i)
    && (forall c {:trigger c in ids} :: c in ids ==> ids[c] < |list| && list[ids[c]] == c)
  }

  /** Every superclass is numbered, and before its subclasses. */
  ghost predicate SupersFirst(cs: Classes, ids: map<string, nat>) {
    forall c {:trigger c in ids} :: c in ids ==> c in cs && SuperFirst(cs, ids, c)
  }

  predicate SuperFirst(cs: Classes, ids: map<string, nat>, c: string)
    requires c in ids
  {
    Sup(cs, c).Some? ==> Sup(cs, c).value in ids && ids[Sup(cs, c).value] < ids[c]
  }

  /** The first n names of a chain. */
  ghost function Visited(cs: Classes, name: string, n: nat): set<string> {
    if n == 0 then {}
    else
      var last := Up(cs, name, n - 1);
      Visited(cs, name, n - 1) + if last.Some? then {last.value} else {}
  }

  lemma {:induction false} VisitedAt(cs: Classes, name: string, n: nat, v: string) returns (k: nat)
    requires v in Visited(cs, name, n)
    ensures k < n && Up(cs, name, k) == Some(v)
  {
    k := n - 1;
    if Up(cs, name, k) != Some(v) {
      k := VisitedAt(cs, name, n - 1, v);
    }
  }

  class Resolver {
    const classes: Classes
    const order: seq<string>
    var diagnostics: seq<string>
    var classId: map<string, nat>
    var nextId: nat
    var baseDepth: map<string, nat>
    var initializeClasses: seq<string>
    ghost var list: seq<string>

    constructor (classes: Classes, order: seq<string>)
      requires Lists(order, classes)
      ensures this.classes == classes && this.order == order
      ensures classId == map[] && nextId == 0 && baseDepth == map[] && initializeClasses == [] && diagnostics == []
      ensures list == []
    {
      this.classes, this.order := classes, order;
      classId, nextId, baseDepth, initializeClasses, diagnostics := map[], 0, map[], [], [];
      list := [];
    }

    /** Reports missing superclasses, and finds a class whose superclass chain comes back. */
    method ValidateHierarchy() returns (cycle: Option<string>)
      requires Lists(order, classes) && "" !in classes
      modifies this`diagnostics
      ensures diagnostics == old(diagnostics) + Missing(classes, order)
      ensures cycle.Some? <==> exists c :: c in classes && Repeats(classes, c)
      ensures cycle.None? <==> Acyclic(classes)
    {
      for i := 0 to |order|
        invariant diagnostics == old(diagnostics) + Missing(classes, order[..i])
      {
        assert order[..i + 1][..i] == order[..i];
        var cls := classes[order[i]];
        if cls.superclass != "" && cls.superclass !in classes {
          diagnostics := diagnostics + [order[i]];
        }
      }
      assert order[..|order|] == order;
      cycle := FindCycle();
    }

    method FindCycle() returns (cycle: Option<string>)
      requires Lists(order, classes) && "" !in classes
      ensures cycle.Some? <==> exists c :: c in classes && Repeats(classes, c)
      ensures cycle.None? <==> Acyclic(classes)
    {
      for i := 0 to |order|
        invariant forall k :: 0 <= k < i ==> Ends(classes, order[k])
      {
        var back := WalkUp(order[i]);
        if back.Some? {
          RepeatsForever(classes, order[i]);
          return Some(order[i]);
        }
      }
      AllEnd(classes, order);
      return None;
    }

    /** Follows the superclass names until the chain ends or a name comes back. */
    method WalkUp(name: string) returns (back: Option<string>)
      requires name in classes && "" !in classes
      ensures back.Some? ==> Repeats(classes, name)
      ensures back.None? ==> Ends(classes, name)
    {
      var visited: set<string> := {};
      var cur := name;
      ghost var n := 0;
      while cur != ""
        invariant visited == Visited(classes, name, n)
        invariant if cur != "" then Up(classes, name, n) == Some(cur) else Up(classes, name, n) == None
        decreases if cur == "" then 0 else 1, classes.Keys - visited
      {
        if cur in visited {
          ghost var k := VisitedAt(classes, name, n, cur);
          assert SameName(classes, name, k, n);
          return Some(cur);
        }
        visited := visited + {cur};
        n := n + 1;
        cur := if cur in classes then classes[cur].superclass else "";
      }
      return None;
    }

    // ---------- class ids ----------

    ghost predicate Numbering()
      reads this
    {
      Acyclic(classes) && Numbers(classId, list) && nextId == |list| && SupersFirst(classes, classId)
    }

    /** Gives a class the next id, after its superclass. */
    method Assign(name: string)
      requires Numbering() && name in classes
      modifies this`classId, this`nextId, this`list
      ensures Numbering() && name in classId && old(list) <= list
      ensures forall c :: c in classId ==> c in old(classId) || NotLonger(classes, c, name)
      decreases Length(classes, name)
    {
      if name in classId {
        return;
      }
      ghost var before := classId;
      var sup := classes[name].superclass;
      if sup != "" && sup in classes {
        LengthStep(classes, name);
        Assign(sup);
      }
      NumbersNext(classes, classId, list, name);
      list := list + [name];
      classId := classId[name := nextId];
      nextId := nextId + 1;
    }

    /** Whatever the order in which the names come. */
    method AssignClassIds(names: seq<string>)
      requires Lists(names, classes) && Acyclic(classes) && classId == map[] && nextId == 0 && list == []
      modifies this`classId, this`nextId, this`list
      ensures Numbering() && classId.Keys == classes.Keys && |list| == |classes|
    {
      for i := 0 to |names|
        invariant Numbering() && forall k :: 0 <= k < i ==> names[k] in classId
      {
        Assign(names[i]);
      }
      assert classId.Keys == classes.Keys;
      ListCount(list, classId, |list|);
    }

    // ---------- depths ----------

    ghost predicate DepthsRight()
      reads this
    {
      Acyclic(classes) && forall c {:trigger c in baseDepth} :: c in baseDepth ==> baseDepth[c] == Depth(classes, c)
    }

    method DepthOf(name: string) returns (d: nat)
      requires DepthsRight()
      modifies this`baseDepth
      ensures DepthsRight() && d == Depth(classes, name) && name in baseDepth && old(baseDepth.Keys) <= baseDepth.Keys
      decreases if name in classes then Length(classes, name) else 0
    {
      if name in baseDepth {
        return baseDepth[name];
      }
      if name !in classes || classes[name].superclass == "" || classes[name].superclass !in classes {
        baseDepth := baseDepth[name := 0];
        return 0;
      }
      LengthStep(classes, name);
      var below := DepthOf(classes[name].superclass);
      d := 1 + below;
      baseDepth := baseDepth[name := d];
    }

    method ComputeBaseDepths()
      requires DepthsRight() && Lists(order, classes)
      modifies this`baseDepth
      ensures DepthsRight() && classes.Keys <= baseDepth.Keys
    {
      for i := 0 to |order|
        invariant DepthsRight() && forall k :: 0 <= k < i ==> order[k] in baseDepth
      {
        var _ := DepthOf(order[i]);
      }
    }

    // ---------- +initialize ----------

    /** Collects the classes that define +initialize, in the order of their ids. */
    method CollectInitializeClasses(sorted: seq<string>)
      requires forall i :: 0 <= i < |sorted| ==> sorted[i] in classes
      modifies this`initializeClasses
      ensures initializeClasses == old(initializeClasses) + Initializing(classes, sorted)
    {
      for i := 0 to |sorted|
        invariant initializeClasses == old(initializeClasses) + Initializing(classes, sorted[..i])
      {
        assert sorted[..i + 1][..i] == sorted[..i];
        var ms := classes[sorted[i]].methods;
        var j := 0;
        while j < |ms| && !(ms[j].isClassMethod && ms[j].selector == "initialize")
          invariant j <= |ms| && forall k :: 0 <= k < j ==> !InitializeMethod(ms[k])
        {
          j := j + 1;
        }
        if j < |ms| {
          assert InitializeMethod(ms[j]);
          initializeClasses := initializeClasses + [sorted[i]];
        }
      }
      assert sorted[..|sorted|] == sorted;
    }
  }

  lemma AllEnd(cs: Classes, order: seq<string>)
    requires Lists(order, cs) && forall k :: 0 <= k < |order| ==> Ends(cs, order[k])
    ensures Acyclic(cs) && !exists c :: c in cs && Repeats(cs, c)
  {
    forall c | c in cs ensures Ends(cs, c) && !Repeats(cs, c) {
      assert c in order;
      RepeatsForever(cs, c);
    }
  }

  // ---------- class ids ----------

  /** The chain of c is no longer than that of name. */
  ghost predicate NotLonger(cs: Classes, c: string, name: string)
    requires Acyclic(cs)
  {
    c in cs && name in cs && Length(cs, c) <= Length(cs, name)
  }

  lemma NumbersNext(cs: Classes, ids: map<string, nat>, list: seq<string>, name: string)
    requires Numbers(ids, list) && SupersFirst(cs, ids) && name in cs && name !in ids
    requires Sup(cs, name).Some? ==> Sup(cs, name).value in ids
    ensures Numbers(ids[name := |list|], list + [name]) && SupersFirst(cs, ids[name := |list|])
  {
    var ids' := ids[name := |list|];
    forall c | c in ids' ensures c in cs && SuperFirst(cs, ids', c) {
      assert c != name ==> c in ids && SuperFirst(cs, ids, c);
    }
  }

  lemma {:induction false} ListCount(list: seq<string>, ids: map<string, nat>, n: nat)
    requires Numbers(ids, list) && n <= |list|
    ensures |set i | 0 <= i < n :: list[i]| == n
    ensures n == |list| ==> |ids| == n
  {
    if n > 0 {
      ListCount(list, ids, n - 1);
      var before := set i | 0 <= i < n - 1 :: list[i];
      assert list[n - 1] !in before by {
        forall i | 0 <= i < n - 1 ensures list[i] != list[n - 1] {
          assert ids[list[i]] == i && ids[list[n - 1]] == n - 1;
        }
      }
      assert (set i | 0 <= i < n :: list[i]) == before + {list[n - 1]};
    }
    if n == |list| {
      assert ids.Keys == set i | 0 <= i < n :: list[i];
    }
  }

  // ---------- +initialize ----------

  predicate InitializeMethod(m: Method) {
    m.isClassMethod && m.selector == "initialize"
  }

  ghost predicate DefinesInitialize(cs: Classes, c: string) {
    c in cs && exists k :: 0 <= k < |cs[c].methods| && InitializeMethod(cs[c].methods[k])
  }

  ghost function Initializing(cs: Classes, sorted: seq<string>): seq<string> {
    if sorted == [] then []
    else
      var c := sorted[|sorted| - 1];
      Initializing(cs, sorted[..|sorted| - 1]) + if DefinesInitialize(cs, c) then [c] else []
  }

  ghost predicate Increasing(l: seq<string>, ids: map<string, nat>) {
    && (forall i {:trigger l[i]} :: 0 <= i < |l| ==> l[i] in ids)
    && (forall i, j {:trigger l[i], l[j]} :: 0 <= i < j < |l| ==> ids[l[i]] < ids[l[j]])
  }

  /** The classes of the module by increasing id. */
  ghost predicate ById(sorted: seq<string>, cs: Classes, ids: map<string, nat>) {
    Lists(sorted, cs) && Increasing(sorted, ids)
  }

  lemma {:induction false} InitializingSorted(cs: Classes, ids: map<string, nat>, sorted: seq<string>)
    requires Increasing(sorted, ids)
    ensures forall c :: c in Initializing(cs, sorted) <==> c in sorted && DefinesInitialize(cs, c)
    ensures Increasing(Initializing(cs, sorted), ids)
  {
    if sorted != [] {
      var n := |sorted| - 1;
      var before := Initializing(cs, sorted[..n]);
      InitializingSorted(cs, ids, sorted[..n]);
      assert sorted == sorted[..n] + [sorted[n]];
      forall i | 0 <= i < |before| ensures before[i] in ids && ids[before[i]] < ids[sorted[n]] {
        assert before[i] in sorted[..n];
        var k :| 0 <= k < n && sorted[k] == before[i];
      }
    }
  }

  lemma {:induction false} AboveSmaller(cs: Classes, ids: map<string, nat>, a: string, c: string)
    requires Acyclic(cs) && SupersFirst(cs, ids) && c in ids && AtOrAbove(cs, a, c)
    ensures a in ids && (a == c || ids[a] < ids[c])
    decreases if c in cs then Length(cs, c) else 0
  {
    if a != c {
      LengthStep(cs, c);
      assert SuperFirst(cs, ids, c);
      AboveSmaller(cs, ids, a, Sup(cs, c).value);
    }
  }

  /** The +initialize list holds exactly the classes that define it, each once, and every
      class comes after all its superclasses in the list. */
  lemma InitializeOrder(cs: Classes, ids: map<string, nat>, sorted: seq<string>, i: nat, j: nat)
    requires Acyclic(cs) && SupersFirst(cs, ids) && ById(sorted, cs, ids)
    requires i < |Initializing(cs, sorted)| && j < |Initializing(cs, sorted)|
    ensures forall c :: c in Initializing(cs, sorted) <==> DefinesInitialize(cs, c)
    ensures Initializing(cs, sorted)[i] == Initializing(cs, sorted)[j] ==> i == j
    ensures AtOrAbove(cs, Initializing(cs, sorted)[i], Initializing(cs, sorted)[j]) ==> i <= j
  {
    InitializingSorted(cs, ids, sorted);
    var l := Initializing(cs, sorted);
    assert l[i] in sorted && l[j] in sorted;
    if AtOrAbove(cs, l[i], l[j]) {
      AboveSmaller(cs, ids, l[i], l[j]);
    }
  }

  /** The classes whose superclass is not in the module. */
  function Missing(cs: Classes, order: seq<string>): seq<string>
    requires forall i :: 0 <= i < |order| ==> order[i] in cs
  {
    if order == [] then []
    else
      var c := order[|order| - 1];
      Missing(cs, order[..|order| - 1]) +
      if cs[c].superclass != "" && cs[c].superclass !in cs then [c] else []
  }

  /** Exactly the classes of the list whose superclass is named and not in the module, each
      as often as it is listed, in the order of the list. */
  lemma {:induction false} MissingExact(cs: Classes, order: seq<string>) returns (at: seq<nat>)
    requires forall i :: 0 <= i < |order| ==> order[i] in cs
    ensures |at| == |Missing(cs, order)|
    ensures forall k :: 0 <= k < |at| ==> at[k] < |order| && Missing(cs, order)[k] == order[at[k]]
    ensures forall j, k :: 0 <= j < k < |at| ==> at[j] < at[k]
    ensures forall i :: 0 <= i < |order| ==>
              (i in at <==> cs[order[i]].superclass != "" && cs[order[i]].superclass !in cs)
  {
    at := [];
    if order != [] {
      var n := |order| - 1;
      at := MissingExact(cs, order[..n]);
      assert n !in at;
      if cs[order[n]].superclass != "" && cs[order[n]].superclass !in cs {
        at := at + [n];
      }
    }
  }
}
