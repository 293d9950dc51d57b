/**
 Modules on which a direct call and dynamic dispatch, or the vtable, part: one for each
 condition of the dispatch theorems.
 */
module DispatchWitnesses {
  import opened Wrappers
  import opened Hierarchy
  import opened Resolve
  import opened Devirtualise

  function Only(sel: string, isClassMethod: bool, dispatch: Dispatch): seq<Method> {
    [Method(sel, isClassMethod, dispatch)]
  }

  lemma OnlyHas(m: Classes, c: string, sel: string, isClassMethod: bool, dispatch: Dispatch)
    requires c in m && m[c].methods == Only(sel, isClassMethod, dispatch)
    ensures Has(m, c, sel) && (Declares(m, c, sel) <==> !isClassMethod)
  {
    assert m[c].methods[0].selector == sel && (Instance(m[c].methods[0], sel) <==> !isClassMethod);
  }

  /** A root class R and its subclass S. */
  ghost predicate Pair(m: Classes) {
    "R" in m && "S" in m && m["R"].superclass == "" && m["S"].superclass == "R"
  }

  lemma PairBelow(m: Classes)
    requires Pair(m) && forall c :: c in m && c != "S" ==> m[c].superclass == ""
    ensures Acyclic(m) && Below(m, "R", "S") && Sup(m, "S") == Some("R") && Sup(m, "R").None?
  {
    forall c | c in m ensures Ends(m, c) {
      if c == "S" {
        assert Up(m, "S", 1) == Some("R") && Up(m, "S", 2).None?;
      } else {
        assert Up(m, c, 0) == Some(c);
        assert Up(m, c, 1).None?;
      }
    }
  }

  /** A class method named s in a class K that comes first; s on R and on its subclass S. */
  function Clash(dispatch: Dispatch): Classes {
    map["K" := ClassDecl("", Only("s", true, Static), false, false),
        "R" := ClassDecl("", Only("s", false, dispatch), false, true),
        "S" := ClassDecl("R", Only("s", false, dispatch), false, false)]
  }

  /** A class method that comes first hides from the call site that a selector is dynamic. */
  lemma ClassMethodMisleads()
    ensures var m := Clash(Protocol);
      && AllStatic(Clash(Static)) && Classified(Clash(Static), m, {}) && Acyclic(m)
      && Kind(m, ["K", "R", "S"], "s") == Static
      && Nearest(m, "R", "s").Some? && !DirectCallRight(m, "R", "s")
  {
    var m := Clash(Protocol);
    ClashClassified();
    PairBelow(m);
    OnlyHas(m, "K", "s", true, Static);
    OnlyHas(m, "R", "s", false, Protocol);
    OnlyHas(m, "S", "s", false, Protocol);
    assert First(m, ["K", "R", "S"], "s") == Some(Method("s", true, Static));
    DirectCallExact(m, "R", "s");
  }

  lemma ClashClassified()
    ensures AllStatic(Clash(Static)) && Classified(Clash(Static), Clash(Protocol), {})
  {
    var cs := Clash(Static);
    OnlyHas(cs, "R", "s", false, Static);
    OnlyHas(cs, "S", "s", false, Static);
    assert {"R", "S"} <= Implementers(cs, "s");
    SubsetSize({"R", "S"}, Implementers(cs, "s"));
  }

  /** s is declared by R alone, and is also a class method of its subclass S. */
  const HIDING: Classes :=
    map["R" := ClassDecl("", Only("s", false, Static), false, true),
        "S" := ClassDecl("R", Only("s", true, Static), false, false)]

  /** A class method of a subclass captures the direct calls to the inherited method. */
  lemma ClassMethodCaptures()
    ensures Acyclic(HIDING) && Nearest(HIDING, "S", "s") == Some("R") && Defining(HIDING, "S", "S", "s") == "S"
    ensures Kind(HIDING, ["R", "S"], "s") == Static && !NoClassMethodBelow(HIDING, "s")
  {
    PairBelow(HIDING);
    OnlyHas(HIDING, "R", "s", false, Static);
    OnlyHas(HIDING, "S", "s", true, Static);
    assert First(HIDING, ["R", "S"], "s") == Some(Method("s", false, Static));
  }

  /** R does not declare retainCount, but its function is emitted; its subclass S does. */
  const COUNTING: Classes :=
    map["R" := ClassDecl("", [], false, true), "S" := ClassDecl("R", Only("retainCount", false, Static), false, false)]

  /** The one declaration leaves the selector STATIC, and a call through R misses it. */
  lemma IntrospectionOverridden()
    ensures AllStatic(COUNTING) && Classified(COUNTING, COUNTING, {}) && Acyclic(COUNTING)
    ensures Kind(COUNTING, ["R", "S"], "retainCount") == Static
    ensures Defining(COUNTING, "R", "R", "retainCount") == "R" && Nearest(COUNTING, "S", "retainCount") == Some("S")
    ensures !DirectCallRight(COUNTING, "R", "retainCount")
  {
    PairBelow(COUNTING);
    OnlyHas(COUNTING, "S", "retainCount", false, Static);
    assert Implementers(COUNTING, "retainCount") == {"S"};
    assert !Has(COUNTING, "R", "retainCount");
    assert ["R", "S"][1..] == ["S"];
    assert First(COUNTING, ["S"], "retainCount") == Some(Method("retainCount", false, Static));
  }

  /** s is declared by R, and is also a class method of its subclass S. */
  const SHADOWING: Classes :=
    map["R" := ClassDecl("", Only("s", false, Protocol), false, true),
        "S" := ClassDecl("R", Only("s", true, Static), false, false)]

  /** The vtable of S names a function that dynamic dispatch would not find. */
  lemma ClassMethodInVtable()
    ensures Acyclic(SHADOWING) && Entry(SHADOWING, "S", "s") == Some("S") && Nearest(SHADOWING, "S", "s") == Some("R")
  {
    PairBelow(SHADOWING);
    OnlyHas(SHADOWING, "R", "s", false, Protocol);
    OnlyHas(SHADOWING, "S", "s", true, Static);
  }

  /** R declares dealloc; its subclass S gets one of its own without declaring it. */
  const INHERITING: Classes :=
    map["R" := ClassDecl("", Only("dealloc", false, Protocol), false, true), "S" := ClassDecl("R", [], false, false)]

  /** The vtable of S holds S's dealloc, and a direct call for an S names R's. */
  lemma InheritedDealloc()
    ensures Acyclic(INHERITING) && Entry(INHERITING, "S", "dealloc") == Some("S")
    ensures Defining(INHERITING, "S", "S", "dealloc") == "R"
  {
    PairBelow(INHERITING);
    OnlyHas(INHERITING, "R", "dealloc", false, Protocol);
    assert !Has(INHERITING, "S", "dealloc");
  }
}
