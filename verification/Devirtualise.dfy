/**
 Dispatch in the transpiler: which selectors need a vtable, what the vtables hold, and
 which function a message compiles to.
 */
module Devirtualise {
  import opened Wrappers
  import opened Hierarchy
  import opened Resolve

  // ---------- classification ----------

  const ALWAYS_PROTOCOL := {"dealloc", "init", "isEqual:", "cDescription:maxLength:"}

  /** Emitted for every root class, whether or not it declares them. */
  const ROOT_INTROSPECTION := {"isEqual:", "cDescription:maxLength:", "retain", "release", "retainCount"}

  predicate Declares(cs: Classes, c: string, sel: string) {
    c in cs && exists k :: 0 <= k < |cs[c].methods| && Instance(cs[c].methods[k], sel)
  }

  predicate Instance(m: Method, sel: string) {
    !m.isClassMethod && m.selector == sel
  }

  ghost function Implementers(cs: Classes, sel: string): set<string> {
    set c | c in cs && Declares(cs, c, sel)
  }

  /** What classification leaves a method with. */
  ghost function Classify(cs: Classes, protocolSelectors: set<string>, m: Method): Method {
    if !m.isClassMethod && (m.selector in protocolSelectors || m.selector in ALWAYS_PROTOCOL ||
                            |Implementers(cs, m.selector)| > 1)
    then m.(dispatch := Protocol)
    else m
  }

  ghost predicate ClassifiedAs(cs: Classes, protocolSelectors: set<string>, before: ClassDecl, after: ClassDecl) {
    && after == before.(methods := after.methods) && |after.methods| == |before.methods|
    && forall k :: 0 <= k < |after.methods| ==> after.methods[k] == Classify(cs, protocolSelectors, before.methods[k])
  }

  /** cs' is the module cs with its methods classified. */
  ghost predicate Classified(cs: Classes, cs': Classes, protocolSelectors: set<string>) {
    cs'.Keys == cs.Keys && forall c :: c in cs ==> ClassifiedAs(cs, protocolSelectors, cs[c], cs'[c])
  }

  /** The classes in which some method met so far has the selector. */
  ghost function Met(cs: Classes, order: seq<string>, sel: string): set<string> {
    set c | c in order && Declares(cs, c, sel)
  }

  function SelectorsOf(protocols: seq<seq<string>>): set<string> {
    if protocols == [] then {} else SelectorsOf(protocols[..|protocols| - 1]) + Elements(protocols[|protocols| - 1])
  }

  function Elements(s: seq<string>): set<string> {
    set x | x in s
  }

  class Dispatcher {
    var classes: Classes
    const order: seq<string>
    const protocols: seq<seq<string>>

    constructor (classes: Classes, order: seq<string>, protocols: seq<seq<string>>)
      ensures this.classes == classes && this.order == order && this.protocols == protocols
    {
      this.classes, this.order, this.protocols := classes, order, protocols;
    }

    method ProtocolSelectors() returns (sels: set<string>)
      ensures sels == SelectorsOf(protocols)
    {
      sels := {};
      for i := 0 to |protocols|
        invariant sels == SelectorsOf(protocols[..i])
      {
        assert protocols[..i + 1][..i] == protocols[..i];
        ghost var before := sels;
        for j := 0 to |protocols[i]|
          invariant sels == before + Elements(protocols[i][..j])
        {
          assert protocols[i][..j + 1] == protocols[i][..j] + [protocols[i][j]];
          sels := sels + {protocols[i][j]};
        }
        assert protocols[i][..|protocols[i]|] == protocols[i];
      }
      assert protocols[..|protocols|] == protocols;
    }

    /** Which classes implement each instance selector. */
    method SelectorClasses() returns (impls: map<string, set<string>>)
      requires Lists(order, classes)
      ensures forall sel :: ImplsOf(impls, sel) == Implementers(classes, sel)
    {
      impls := map[];
      for i := 0 to |order|
        invariant ImplsAre(impls, classes, order, i, 0)
      {
        var ms := classes[order[i]].methods;
        for j := 0 to |ms|
          invariant ImplsAre(impls, classes, order, i, j)
        {
          ghost var before := impls;
          if !ms[j].isClassMethod {
            var sel := ms[j].selector;
            if sel !in impls {
              impls := impls[sel := {}];
            }
            impls := impls[sel := impls[sel] + {order[i]}];
          }
          ImplAdded(before, impls, classes, order, i, j);
        }
        ClassMet(impls, classes, order, i);
      }
      AllMet(impls, classes, order);
    }

    /** Marks every instance method whose selector needs dynamic dispatch. */
    method ClassifyDispatch()
      requires Lists(order, classes)
      modifies this`classes
      ensures Classified(old(classes), classes, SelectorsOf(protocols))
    {
      var sels := ProtocolSelectors();
      var impls := SelectorClasses();
      ghost var cs := classes;
      for i := 0 to |order|
        invariant classes.Keys == cs.Keys
        invariant forall k :: 0 <= k < i ==> ClassifiedAs(cs, sels, cs[order[k]], classes[order[k]])
        invariant forall k :: i <= k < |order| ==> classes[order[k]] == cs[order[k]]
      {
        var decl := classes[order[i]];
        var ms := decl.methods;
        for j := 0 to |ms|
          invariant |ms| == |decl.methods|
          invariant forall k :: 0 <= k < j ==> ms[k] == Classify(cs, sels, decl.methods[k])
          invariant forall k :: j <= k < |ms| ==> ms[k] == decl.methods[k]
        {
          if !ms[j].isClassMethod {
            var sel := ms[j].selector;
            assert ImplsOf(impls, sel) == Implementers(cs, sel);
            if sel in sels || sel in ALWAYS_PROTOCOL || (sel in impls && |impls[sel]| > 1) {
              ms := ms[j := ms[j].(dispatch := Protocol)];
            }
          }
        }
        classes := classes[order[i] := decl.(methods := ms)];
      }
    }
  }

  function ImplsOf(impls: map<string, set<string>>, sel: string): set<string> {
    if sel in impls then impls[sel] else {}
  }

  predicate AmongFirst(ms: seq<Method>, j: nat, sel: string)
    requires j <= |ms|
  {
    exists k :: 0 <= k < j && Instance(ms[k], sel)
  }

  /** The classes met before position i, and class i if its first j methods implement sel. */
  ghost function MetUpTo(cs: Classes, order: seq<string>, i: nat, j: nat, sel: string): set<string>
    requires i < |order| && order[i] in cs ==> j <= |cs[order[i]].methods|
    requires i <= |order|
  {
    Met(cs, order[..i], sel) +
    if i < |order| && order[i] in cs && AmongFirst(cs[order[i]].methods, j, sel) then {order[i]} else {}
  }

  ghost predicate ImplsAre(impls: map<string, set<string>>, cs: Classes, order: seq<string>, i: nat, j: nat) {
    && i <= |order| && (i < |order| && order[i] in cs ==> j <= |cs[order[i]].methods|)
    && forall sel :: ImplsOf(impls, sel) == MetUpTo(cs, order, i, j, sel)
  }

  /** The next method of class i has been looked at. */
  lemma ImplAdded(before: map<string, set<string>>, impls: map<string, set<string>>, cs: Classes,
                  order: seq<string>, i: nat, j: nat)
    requires i < |order| && order[i] in cs && j < |cs[order[i]].methods|
    requires ImplsAre(before, cs, order, i, j)
    requires var m := cs[order[i]].methods[j];
      impls == if m.isClassMethod then before
               else before[m.selector := ImplsOf(before, m.selector) + {order[i]}]
    ensures ImplsAre(impls, cs, order, i, j + 1)
  {
    var ms := cs[order[i]].methods;
    forall sel ensures ImplsOf(impls, sel) == MetUpTo(cs, order, i, j + 1, sel) {
      assert AmongFirst(ms, j + 1, sel) <==> AmongFirst(ms, j, sel) || Instance(ms[j], sel);
      assert ImplsOf(before, sel) == MetUpTo(cs, order, i, j, sel);
    }
  }

  /** All methods of class i have been looked at. */
  lemma ClassMet(impls: map<string, set<string>>, cs: Classes, order: seq<string>, i: nat)
    requires i < |order| && order[i] in cs && ImplsAre(impls, cs, order, i, |cs[order[i]].methods|)
    ensures ImplsAre(impls, cs, order, i + 1, 0)
  {
    var ms := cs[order[i]].methods;
    assert order[..i + 1] == order[..i] + [order[i]];
    forall sel ensures ImplsOf(impls, sel) == MetUpTo(cs, order, i + 1, 0, sel) {
      assert Declares(cs, order[i], sel) <==> AmongFirst(ms, |ms|, sel);
      assert ImplsOf(impls, sel) == MetUpTo(cs, order, i, |ms|, sel);
    }
  }

  lemma AllMet(impls: map<string, set<string>>, cs: Classes, order: seq<string>)
    requires Lists(order, cs) && ImplsAre(impls, cs, order, |order|, 0)
    ensures forall sel :: ImplsOf(impls, sel) == Implementers(cs, sel)
  {
    assert order[..|order|] == order;
    forall sel ensures ImplsOf(impls, sel) == Implementers(cs, sel) {
      assert ImplsOf(impls, sel) == MetUpTo(cs, order, |order|, 0, sel);
    }
  }

  // ---------- what STATIC means ----------

  /** Before classification every method is STATIC. */
  predicate AllStatic(cs: Classes) {
    forall c, k :: c in cs && 0 <= k < |cs[c].methods| ==> cs[c].methods[k].dispatch == Static
  }

  lemma {:induction false} OneImplementer(s: set<string>, c: string)
    requires c in s
    ensures |s| > 1 <==> exists d :: d in s && d != c
  {
    assert s == {c} + (s - {c});
    if |s| > 1 {
      assert s - {c} != {};
      var d :| d in s - {c};
      assert d in s && d != c;
    }
    forall d | d in s && d != c ensures |s| > 1 {
      SubsetSize({c, d}, s);
    }
  }

  /** An instance method is left STATIC exactly when no protocol names its selector, it is
      not one of the selectors that are always dynamic, and no other class implements it. */
  lemma StaticMeansUnique(cs: Classes, cs': Classes, sels: set<string>, c: string, k: nat)
    requires AllStatic(cs) && Classified(cs, cs', sels)
    requires c in cs && k < |cs[c].methods| && !cs[c].methods[k].isClassMethod
    ensures c in cs' && k < |cs'[c].methods|
    ensures cs'[c].methods[k].dispatch == Static <==>
            var sel := cs[c].methods[k].selector;
            && sel !in sels && sel !in ALWAYS_PROTOCOL
            && forall d :: Declares(cs, d, sel) ==> d == c
  {
    var sel := cs[c].methods[k].selector;
    assert ClassifiedAs(cs, sels, cs[c], cs'[c]);
    assert Instance(cs[c].methods[k], sel) && c in Implementers(cs, sel);
    OneImplementer(Implementers(cs, sel), c);
    assert forall d :: d in Implementers(cs, sel) <==> Declares(cs, d, sel);
  }

  // ---------- resolving a call ----------

  predicate Has(cs: Classes, c: string, sel: string) {
    c in cs && exists k :: 0 <= k < |cs[c].methods| && cs[c].methods[k].selector == sel
  }

  /** The emitted code of the class has an instance method for the selector. */
  predicate Defines(cs: Classes, c: string, sel: string) {
    Declares(cs, c, sel) || (IsRoot(cs, c) && sel in ROOT_INTROSPECTION)
  }

  /** The root class of the program, for which the introspection functions are emitted. */
  predicate IsRoot(cs: Classes, c: string) {
    c in cs && cs[c].isRoot && cs[c].superclass == ""
  }

  /** Dynamic dispatch: the nearest class at or above c whose code defines the selector. */
  ghost function Nearest(cs: Classes, c: string, sel: string): Option<string>
    requires Acyclic(cs)
    decreases if c in cs then Length(cs, c) else 0
  {
    if Defines(cs, c, sel) then Some(c)
    else if Sup(cs, c).None? then None
    else (LengthStep(cs, c); Nearest(cs, Sup(cs, c).value, sel))
  }

  /** The class that a direct call names: the search up from the static class. */
  ghost function Defining(cs: Classes, from: string, c: string, sel: string): string
    requires Acyclic(cs)
    decreases if c in cs then Length(cs, c) else 0
  {
    if c !in cs then from
    else if Has(cs, c, sel) || (cs[c].superclass == "" && sel in ROOT_INTROSPECTION) then c
    else if Sup(cs, c).None? then from
    else (LengthStep(cs, c); Defining(cs, from, Sup(cs, c).value, sel))
  }

  /** A class that gets a dealloc of its own in the emitted code. */
  predicate AutoDealloc(cs: Classes, c: string) {
    c in cs && (cs[c].strongIvars || Sup(cs, c).Some?)
  }

  /** The class whose implementation the vtable of a selector holds for class c. */
  ghost function Entry(cs: Classes, c: string, sel: string): Option<string>
    requires Acyclic(cs)
  {
    if sel == "dealloc" && AutoDealloc(cs, c) then Some(c) else NearestHaving(cs, c, sel)
  }

  ghost function NearestHaving(cs: Classes, c: string, sel: string): Option<string>
    requires Acyclic(cs)
    decreases if c in cs then Length(cs, c) else 0
  {
    if Has(cs, c, sel) then Some(c)
    else if Sup(cs, c).None? then None
    else (LengthStep(cs, c); NearestHaving(cs, Sup(cs, c).value, sel))
  }

  method HasMethod(ms: seq<Method>, sel: string) returns (found: bool)
    ensures found <==> exists k :: 0 <= k < |ms| && ms[k].selector == sel
  {
    for k := 0 to |ms|
      invariant forall i :: 0 <= i < k ==> ms[i].selector != sel
    {
      if ms[k].selector == sel {
        return true;
      }
    }
    return false;
  }

  method FindImplementingClass(cs: Classes, c: string, sel: string) returns (impl: Option<string>)
    requires Acyclic(cs) && c in cs
    ensures impl == Entry(cs, c, sel)
  {
    if sel == "dealloc" && (cs[c].strongIvars || (cs[c].superclass != "" && cs[c].superclass in cs)) {
      return Some(c);
    }
    var cur := c;
    while true
      invariant cur in cs && NearestHaving(cs, c, sel) == NearestHaving(cs, cur, sel)
      decreases Length(cs, cur)
    {
      var found := HasMethod(cs[cur].methods, sel);
      if found {
        return Some(cur);
      }
      if cs[cur].superclass != "" && cs[cur].superclass in cs {
        LengthStep(cs, cur);
        cur := cs[cur].superclass;
      } else {
        return None;
      }
    }
  }

  method FindDefiningClass(cs: Classes, c: string, sel: string) returns (def: string)
    requires Acyclic(cs) && "" !in cs
    ensures def == Defining(cs, c, c, sel)
  {
    var name := c;
    while name != "" && name in cs
      invariant Defining(cs, c, c, sel) == if name in cs then Defining(cs, c, name, sel) else c
      decreases if name in cs then Length(cs, name) + 1 else 0
    {
      var found := HasMethod(cs[name].methods, sel);
      if found || (cs[name].superclass == "" && sel in ROOT_INTROSPECTION) {
        return name;
      }
      if cs[name].superclass != "" && cs[name].superclass in cs {
        LengthStep(cs, name);
      }
      name := cs[name].superclass;
    }
    return c;
  }

  /** The first method of the module with the selector. */
  ghost function First(cs: Classes, order: seq<string>, sel: string): Option<Method> {
    if order == [] then None
    else if Has(cs, order[0], sel) then FirstOf(cs[order[0]].methods, sel)
    else First(cs, order[1..], sel)
  }

  function FirstOf(ms: seq<Method>, sel: string): Option<Method> {
    if ms == [] then None
    else if ms[0].selector == sel then Some(ms[0])
    else FirstOf(ms[1..], sel)
  }

  /** The dispatch kind of a selector: that of the first method with it. */
  ghost function Kind(cs: Classes, order: seq<string>, sel: string): Dispatch {
    var m := First(cs, order, sel);
    if m.Some? then m.value.dispatch else Static
  }

  lemma {:induction false} FirstOfAmong(ms: seq<Method>, sel: string) returns (k: nat)
    requires exists k :: 0 <= k < |ms| && ms[k].selector == sel
    ensures k < |ms| && ms[k].selector == sel && FirstOf(ms, sel) == Some(ms[k])
  {
    if ms[0].selector == sel {
      k := 0;
    } else {
      var j :| 0 <= j < |ms| && ms[j].selector == sel;
      assert ms[1..][j - 1].selector == sel;
      k := FirstOfAmong(ms[1..], sel);
      k := k + 1;
    }
  }

  method FindDispatchKind(cs: Classes, order: seq<string>, sel: string) returns (kind: Dispatch)
    requires forall i :: 0 <= i < |order| ==> order[i] in cs
    ensures kind == Kind(cs, order, sel)
  {
    for i := 0 to |order|
      invariant First(cs, order, sel) == First(cs, order[i..], sel)
    {
      var ms := cs[order[i]].methods;
      for j := 0 to |ms|
        invariant FirstOf(ms, sel) == FirstOf(ms[j..], sel)
        invariant forall k :: 0 <= k < j ==> ms[k].selector != sel
      {
        if ms[j].selector == sel {
          return ms[j].dispatch;
        }
      }
    }
    return Static;
  }

  // ---------- soundness ----------

  ghost predicate Below(cs: Classes, c: string, d: string)
    requires Acyclic(cs)
  {
    d in cs && AtOrAbove(cs, c, d)
  }

  /** Nothing strictly below c redefines the selector. */
  ghost predicate NotOverridden(cs: Classes, c: string, sel: string)
    requires Acyclic(cs)
  {
    forall d :: Below(cs, c, d) && d != c ==> !Defines(cs, d, sel)
  }

  /** On the way up to the class that defines the selector no class method has its name. */
  ghost predicate NotHidden(cs: Classes, c: string, sel: string)
    requires Acyclic(cs)
    decreases if c in cs then Length(cs, c) else 0
  {
    Defines(cs, c, sel) ||
    (!Has(cs, c, sel) && (Sup(cs, c).Some? ==> (LengthStep(cs, c); NotHidden(cs, Sup(cs, c).value, sel))))
  }

  lemma {:induction false} AboveShorter(cs: Classes, a: string, c: string)
    requires Acyclic(cs) && c in cs && AtOrAbove(cs, a, c)
    ensures a in cs && (a == c || Length(cs, a) < Length(cs, c))
    decreases Length(cs, c)
  {
    if a != c {
      LengthStep(cs, c);
      AboveShorter(cs, a, Sup(cs, c).value);
    }
  }

  lemma {:induction false} NearestAbove(cs: Classes, c: string, sel: string)
    requires Acyclic(cs) && c in cs && Nearest(cs, c, sel).Some?
    ensures AtOrAbove(cs, Nearest(cs, c, sel).value, c)
    ensures Defines(cs, Nearest(cs, c, sel).value, sel)
    decreases Length(cs, c)
  {
    if !Defines(cs, c, sel) {
      LengthStep(cs, c);
      NearestAbove(cs, Sup(cs, c).value, sel);
    }
  }

  /** What is found from the superclass is not the class itself. */
  lemma NearestElsewhere(cs: Classes, c: string, sel: string)
    requires Acyclic(cs) && c in cs && Sup(cs, c).Some? && Nearest(cs, Sup(cs, c).value, sel).Some?
    ensures Nearest(cs, Sup(cs, c).value, sel).value != c
  {
    LengthStep(cs, c);
    NearestAbove(cs, Sup(cs, c).value, sel);
    AboveShorter(cs, Nearest(cs, Sup(cs, c).value, sel).value, Sup(cs, c).value);
  }

  /** The search for the defining class finds the nearest one unless a class method hides it. */
  lemma {:induction false} DefiningIsNearest(cs: Classes, from: string, c: string, sel: string)
    requires Acyclic(cs) && c in cs && Nearest(cs, c, sel).Some?
    ensures Defining(cs, from, c, sel) == Nearest(cs, c, sel).value <==> NotHidden(cs, c, sel)
    decreases Length(cs, c)
  {
    if !Defines(cs, c, sel) {
      LengthStep(cs, c);
      NearestElsewhere(cs, c, sel);
      DefiningIsNearest(cs, from, Sup(cs, c).value, sel);
    }
  }

  /** Without overriding, every class below finds what c finds. */
  lemma {:induction false} NearestFromBelow(cs: Classes, c: string, d: string, sel: string)
    requires Acyclic(cs) && NotOverridden(cs, c, sel) && Below(cs, c, d)
    ensures Nearest(cs, d, sel) == Nearest(cs, c, sel)
    decreases Length(cs, d)
  {
    if d != c {
      LengthStep(cs, d);
      NearestFromBelow(cs, c, Sup(cs, d).value, sel);
    }
  }

  /** A direct call that dynamic dispatch agrees with, whatever the receiver's class. */
  ghost predicate DirectCallRight(cs: Classes, c: string, sel: string)
    requires Acyclic(cs)
  {
    forall d :: Below(cs, c, d) ==> Nearest(cs, d, sel) == Some(Defining(cs, c, c, sel))
  }

  /** For a class that understands the selector, the direct call is right for every dynamic
      class if and only if no class below redefines it and no class method hides it. */
  lemma DirectCallExact(cs: Classes, c: string, sel: string)
    requires Acyclic(cs) && c in cs && Nearest(cs, c, sel).Some?
    ensures DirectCallRight(cs, c, sel) <==> NotOverridden(cs, c, sel) && NotHidden(cs, c, sel)
  {
    DefiningIsNearest(cs, c, c, sel);
    assert Below(cs, c, c);
    if NotOverridden(cs, c, sel) {
      forall d | Below(cs, c, d) ensures Nearest(cs, d, sel) == Nearest(cs, c, sel) {
        NearestFromBelow(cs, c, d, sel);
      }
    } else {
      var d :| Below(cs, c, d) && d != c && Defines(cs, d, sel);
      OverriderElsewhere(cs, c, d, sel);
    }
  }

  lemma OverriderElsewhere(cs: Classes, c: string, d: string, sel: string)
    requires Acyclic(cs) && c in cs && Nearest(cs, c, sel).Some? && Below(cs, c, d) && d != c && Defines(cs, d, sel)
    ensures Nearest(cs, d, sel) == Some(d) && Nearest(cs, c, sel) != Some(d)
  {
    NearestAbove(cs, c, sel);
    AboveShorter(cs, Nearest(cs, c, sel).value, c);
    AboveShorter(cs, c, d);
  }

  /** Below a class that defines the selector no class has a method with it, of either kind. */
  ghost predicate NothingBelow(cs: Classes, sel: string)
    requires Acyclic(cs)
  {
    forall x, d :: x in cs && Defines(cs, x, sel) && Below(cs, x, d) && d != x ==> !Has(cs, d, sel)
  }

  ghost predicate AllCallsRight(cs: Classes, sel: string)
    requires Acyclic(cs)
  {
    forall c :: c in cs && Nearest(cs, c, sel).Some? ==> DirectCallRight(cs, c, sel)
  }

  lemma {:induction false} NearestSome(cs: Classes, x: string, d: string, sel: string)
    requires Acyclic(cs) && x in cs && Defines(cs, x, sel) && Below(cs, x, d)
    ensures Nearest(cs, d, sel).Some?
    decreases Length(cs, d)
  {
    if d != x {
      LengthStep(cs, d);
      NearestSome(cs, x, Sup(cs, d).value, sel);
    }
  }

  lemma {:induction false} NothingHides(cs: Classes, x: string, d: string, sel: string)
    requires Acyclic(cs) && x in cs && Defines(cs, x, sel) && Below(cs, x, d) && NothingBelow(cs, sel)
    ensures NotHidden(cs, d, sel)
    decreases Length(cs, d)
  {
    if d != x {
      LengthStep(cs, d);
      NothingHides(cs, x, Sup(cs, d).value, sel);
    }
  }

  /** Direct calls of a selector are right for every static class that understands it and
      every dynamic class below if and only if below a class that defines it no class has a
      method of that name, instance or class. */
  lemma AllCallsExact(cs: Classes, sel: string)
    requires Acyclic(cs)
    ensures AllCallsRight(cs, sel) <==> NothingBelow(cs, sel)
  {
    if NothingBelow(cs, sel) {
      forall c | c in cs && Nearest(cs, c, sel).Some? ensures DirectCallRight(cs, c, sel) {
        CallRight(cs, c, sel);
      }
    }
    if AllCallsRight(cs, sel) {
      forall x, d | x in cs && Defines(cs, x, sel) && Below(cs, x, d) && d != x ensures !Has(cs, d, sel) {
        BelowClean(cs, x, d, sel);
      }
    }
  }

  lemma CallRight(cs: Classes, c: string, sel: string)
    requires Acyclic(cs) && NothingBelow(cs, sel) && c in cs && Nearest(cs, c, sel).Some?
    ensures DirectCallRight(cs, c, sel)
  {
    var x := Nearest(cs, c, sel).value;
    NearestAbove(cs, c, sel);
    AboveShorter(cs, x, c);
    NothingHides(cs, x, c, sel);
    forall d | Below(cs, c, d) && d != c ensures !Defines(cs, d, sel) {
      AboveTrans(cs, x, c, d);
      AboveShorter(cs, c, d);
      assert !Has(cs, d, sel) && cs[d].superclass != "";
      DeclaresHas(cs, d, sel);
    }
    DirectCallExact(cs, c, sel);
  }

  lemma DeclaresHas(cs: Classes, c: string, sel: string)
    ensures Declares(cs, c, sel) ==> Has(cs, c, sel)
  {
    if Declares(cs, c, sel) {
      var k :| 0 <= k < |cs[c].methods| && Instance(cs[c].methods[k], sel);
      assert cs[c].methods[k].selector == sel;
    }
  }

  lemma BelowClean(cs: Classes, x: string, d: string, sel: string)
    requires Acyclic(cs) && AllCallsRight(cs, sel)
    requires x in cs && Defines(cs, x, sel) && Below(cs, x, d) && d != x
    ensures !Has(cs, d, sel)
  {
    DirectCallExact(cs, x, sel);
    NearestSome(cs, x, d, sel);
    DirectCallExact(cs, d, sel);
  }

  // ---------- STATIC selectors ----------

  /** A selector whose first method is a STATIC instance method is declared by one class. */
  lemma {:induction false} StaticUnique(cs: Classes, m: Classes, sels: set<string>, order: seq<string>, sel: string)
    requires AllStatic(cs) && Classified(cs, m, sels)
    requires First(m, order, sel).Some? && !First(m, order, sel).value.isClassMethod && Kind(m, order, sel) == Static
    ensures forall c, d :: Declares(m, c, sel) && Declares(m, d, sel) ==> c == d
    decreases |order|
  {
    if Has(m, order[0], sel) {
      var c := order[0];
      var k := FirstOfAmong(m[c].methods, sel);
      assert ClassifiedAs(cs, sels, cs[c], m[c]);
      StaticMeansUnique(cs, m, sels, c, k);
      DeclaresKept(cs, m, sels, sel);
    } else {
      StaticUnique(cs, m, sels, order[1..], sel);
    }
  }

  /** Classification changes nothing else. */
  lemma DeclaresKept(cs: Classes, m: Classes, sels: set<string>, sel: string)
    requires Classified(cs, m, sels)
    ensures forall c :: Declares(cs, c, sel) <==> Declares(m, c, sel)
  {
    forall c ensures Declares(cs, c, sel) <==> Declares(m, c, sel) {
      if c in cs {
        assert ClassifiedAs(cs, sels, cs[c], m[c]);
      }
    }
  }

  /** Below a class that defines the selector no class has only a class method of that name. */
  ghost predicate NoClassMethodBelow(m: Classes, sel: string)
    requires Acyclic(m)
  {
    forall x, d :: x in m && Defines(m, x, sel) && Below(m, x, d) && d != x && Has(m, d, sel) ==> Declares(m, d, sel)
  }

  /** Below the root class no class declares the selector. */
  ghost predicate NoneBelowRoots(m: Classes, sel: string)
    requires Acyclic(m)
  {
    forall r, d :: IsRoot(m, r) && Below(m, r, d) && d != r ==> !Declares(m, d, sel)
  }

  /** Devirtualisation of STATIC selectors, exactly.  In a classified module, when the
      method that decides the kind is an instance method, the direct calls of a STATIC
      selector are all right if and only if no class method of its name lies below a class
      that defines it and, for an introspection selector, no subclass of the root declares it:
      the functions emitted for the root are not counted as implementations. */
  lemma DevirtualisationExact(cs: Classes, m: Classes, sels: set<string>, order: seq<string>, sel: string)
    requires Acyclic(m) && Lists(order, m) && AllStatic(cs) && Classified(cs, m, sels)
    requires Kind(m, order, sel) == Static
    requires First(m, order, sel).Some? ==> !First(m, order, sel).value.isClassMethod
    ensures AllCallsRight(m, sel) <==>
            NoClassMethodBelow(m, sel) && (sel in ROOT_INTROSPECTION ==> NoneBelowRoots(m, sel))
  {
    AllCallsExact(m, sel);
    OneDeclarer(cs, m, sels, order, sel);
    if NothingBelow(m, sel) && sel in ROOT_INTROSPECTION {
      forall r, d | IsRoot(m, r) && Below(m, r, d) && d != r ensures !Declares(m, d, sel) {
        assert Defines(m, r, sel);
        assert !Has(m, d, sel);
      }
    }
  }

  lemma OneDeclarer(cs: Classes, m: Classes, sels: set<string>, order: seq<string>, sel: string)
    requires Lists(order, m) && AllStatic(cs) && Classified(cs, m, sels) && Kind(m, order, sel) == Static
    requires First(m, order, sel).Some? ==> !First(m, order, sel).value.isClassMethod
    ensures forall c, d :: Declares(m, c, sel) && Declares(m, d, sel) ==> c == d
  {
    if First(m, order, sel).Some? {
      StaticUnique(cs, m, sels, order, sel);
    } else {
      forall c | c in order ensures !Has(m, c, sel) {
        NoFirst(m, order, sel, c);
      }
      forall c ensures !Declares(m, c, sel) {
        assert c in m ==> c in order;
      }
    }
  }

  lemma {:induction false} NoFirst(m: Classes, order: seq<string>, sel: string, c: string)
    requires First(m, order, sel).None? && c in order
    ensures !Has(m, c, sel)
  {
    if Has(m, order[0], sel) {
      var k := FirstOfAmong(m[order[0]].methods, sel);
    } else if c != order[0] {
      NoFirst(m, order[1..], sel, c);
    }
  }

  /** Devirtualisation is sound: a message with a STATIC selector, other than an
      introspection selector declared below a root, compiles to the function that dynamic
      dispatch would find, whatever the dynamic class below the static one. */
  lemma DevirtualisationSound(cs: Classes, m: Classes, sels: set<string>, order: seq<string>, sel: string, c: string)
    requires Acyclic(m) && Lists(order, m) && AllStatic(cs) && Classified(cs, m, sels)
    requires Kind(m, order, sel) == Static
    requires First(m, order, sel).Some? ==> !First(m, order, sel).value.isClassMethod
    requires NoClassMethodBelow(m, sel) && (sel in ROOT_INTROSPECTION ==> NoneBelowRoots(m, sel))
    requires c in m && Nearest(m, c, sel).Some?
    ensures DirectCallRight(m, c, sel)
  {
    DevirtualisationExact(cs, m, sels, order, sel);
  }

  // ---------- vtables ----------

  /** Every vtable entry of a selector other than dealloc is what dynamic dispatch finds if
      and only if the classes that have a method of its name are those whose code defines
      it: no class method of that name alone, and no undeclared root function. */
  lemma EntriesExact(m: Classes, sel: string)
    requires Acyclic(m) && sel != "dealloc"
    ensures (forall c :: c in m ==> Entry(m, c, sel) == Nearest(m, c, sel)) <==>
            (forall c :: c in m ==> (Has(m, c, sel) <==> Defines(m, c, sel)))
  {
    if forall c :: c in m ==> (Has(m, c, sel) <==> Defines(m, c, sel)) {
      forall c | c in m ensures Entry(m, c, sel) == Nearest(m, c, sel) {
        EntryIsNearest(m, c, sel);
      }
    } else {
      var c :| c in m && !(Has(m, c, sel) <==> Defines(m, c, sel));
      EntryDiffers(m, c, sel);
    }
  }

  /** The vtable's dealloc for a class skips no class with strong ivars: it is that of a class
      at or below every such one, and the chain goes up from there. */
  lemma DeallocCovers(m: Classes, c: string, a: string)
    requires Acyclic(m) && c in m && AtOrAbove(m, a, c) && a in m && m[a].strongIvars
    ensures Entry(m, c, "dealloc").Some? && AtOrAbove(m, a, Entry(m, c, "dealloc").value)
  {
    AboveShorter(m, a, c);
  }

  lemma EntryDiffers(m: Classes, c: string, sel: string)
    requires Acyclic(m) && sel != "dealloc" && c in m && !(Has(m, c, sel) <==> Defines(m, c, sel))
    ensures Entry(m, c, sel) != Nearest(m, c, sel)
  {
    if Has(m, c, sel) {
      if Sup(m, c).Some? && Nearest(m, Sup(m, c).value, sel).Some? {
        NearestElsewhere(m, c, sel);
      }
    } else if NearestHaving(m, c, sel).Some? {
      HavingOther(m, c, sel);
    }
  }

  lemma {:induction false} EntryIsNearest(m: Classes, c: string, sel: string)
    requires Acyclic(m) && c in m && forall d :: d in m ==> (Has(m, d, sel) <==> Defines(m, d, sel))
    ensures NearestHaving(m, c, sel) == Nearest(m, c, sel)
    decreases Length(m, c)
  {
    assert Has(m, c, sel) <==> Defines(m, c, sel);
    if !Defines(m, c, sel) && Sup(m, c).Some? {
      LengthStep(m, c);
      EntryIsNearest(m, Sup(m, c).value, sel);
    }
  }

  lemma {:induction false} DefiningIsHaving(m: Classes, from: string, c: string, sel: string)
    requires Acyclic(m) && c in m && NearestHaving(m, c, sel).Some?
    ensures Some(Defining(m, from, c, sel)) == NearestHaving(m, c, sel)
    decreases Length(m, c)
  {
    if !Has(m, c, sel) {
      LengthStep(m, c);
      DefiningIsHaving(m, from, Sup(m, c).value, sel);
    }
  }

  /** The direct call for a receiver whose dynamic class is the static one goes where the
      vtable would, exactly if the vtable has an entry at all; for dealloc, which classes
      get without declaring it, exactly if no superclass's is found first. */
  lemma DirectMatchesVtable(m: Classes, c: string, sel: string)
    requires Acyclic(m) && c in m
    ensures sel != "dealloc" ==>
              (Entry(m, c, sel) == Some(Defining(m, c, c, sel)) <==> Entry(m, c, sel).Some?)
    ensures sel == "dealloc" ==>
              (Entry(m, c, sel) == Some(Defining(m, c, c, sel)) <==>
               if AutoDealloc(m, c) then NearestHaving(m, c, sel).None? || Has(m, c, sel)
               else NearestHaving(m, c, sel).Some?)
  {
    if NearestHaving(m, c, sel).Some? {
      DefiningIsHaving(m, c, c, sel);
      if !Has(m, c, sel) {
        HavingOther(m, c, sel);
      }
    } else if sel !in ROOT_INTROSPECTION {
      DefiningNone(m, c, c, sel);
    }
  }

  lemma HavingOther(m: Classes, c: string, sel: string)
    requires Acyclic(m) && c in m && NearestHaving(m, c, sel).Some? && !Has(m, c, sel)
    ensures NearestHaving(m, c, sel).value != c
  {
    HavingHas(m, c, sel);
  }

  lemma {:induction false} HavingHas(m: Classes, c: string, sel: string)
    requires Acyclic(m) && c in m && NearestHaving(m, c, sel).Some?
    ensures Has(m, NearestHaving(m, c, sel).value, sel)
    decreases Length(m, c)
  {
    if !Has(m, c, sel) {
      LengthStep(m, c);
      HavingHas(m, Sup(m, c).value, sel);
    }
  }

  lemma {:induction false} DefiningNone(m: Classes, from: string, c: string, sel: string)
    requires Acyclic(m) && c in m && NearestHaving(m, c, sel).None? && sel !in ROOT_INTROSPECTION
    ensures Defining(m, from, c, sel) == from
    decreases Length(m, c)
  {
    if Sup(m, c).Some? {
      LengthStep(m, c);
      DefiningNone(m, from, Sup(m, c).value, sel);
    }
  }
}
