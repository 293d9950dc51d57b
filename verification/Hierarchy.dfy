/**
 The classes of a translated module and the questions asked about them: superclass chains,
 who declares a method, and which class a call resolves to.
 */
module Hierarchy {
  import opened Wrappers

  datatype Dispatch = Static | Protocol

  datatype Method = Method(selector: string, isClassMethod: bool, dispatch: Dispatch)

  /** A class; an empty superclass name means none. */
  datatype ClassDecl = ClassDecl(superclass: string, methods: seq<Method>, strongIvars: bool, isRoot: bool)

  type Classes = map<string, ClassDecl>

  // ---------- superclass chains ----------

  /** The name that follows on a superclass chain, whether or not it names a known class. */
  function Next(cs: Classes, name: string): Option<string> {
    if name in cs && cs[name].superclass != "" then Some(cs[name].superclass) else None
  }

  /** The n-th name on the superclass chain, or None past its end. */
  function Up(cs: Classes, name: string, n: nat): Option<string> {
    if n == 0 then Some(name)
    else
      var below := Up(cs, name, n - 1);
      if below.None? then None else Next(cs, below.value)
  }

  /** Some name occurs twice on the chain. */
  ghost predicate Repeats(cs: Classes, name: string) {
    exists i: nat, j: nat :: i < j && SameName(cs, name, i, j)
  }

  predicate SameName(cs: Classes, name: string, i: nat, j: nat) {
    Up(cs, name, i).Some? && Up(cs, name, i) == Up(cs, name, j)
  }

  ghost predicate Ends(cs: Classes, name: string) {
    exists n: nat :: Up(cs, name, n).None?
  }

  ghost predicate Acyclic(cs: Classes) {
    forall c :: c in cs ==> Ends(cs, c)
  }

  lemma {:induction false} UpShift(cs: Classes, name: string, n: nat)
    requires Next(cs, name).Some?
    ensures Up(cs, name, n + 1) == Up(cs, Next(cs, name).value, n)
  {
    if n > 0 {
      UpShift(cs, name, n - 1);
    }
  }

  lemma {:induction false} EndsForGood(cs: Classes, name: string, n: nat, k: nat)
    requires n <= k && Up(cs, name, n).None?
    ensures Up(cs, name, k).None?
  {
    if n < k {
      EndsForGood(cs, name, n, k - 1);
    }
  }

  lemma {:induction false} Periodic(cs: Classes, name: string, i: nat, j: nat, k: nat)
    requires SameName(cs, name, i, j)
    ensures Up(cs, name, i + k) == Up(cs, name, j + k)
  {
    if k > 0 {
      Periodic(cs, name, i, j, k - 1);
    }
  }

  /** A chain that repeats a name never ends. */
  lemma RepeatsForever(cs: Classes, name: string)
    ensures Repeats(cs, name) ==> !Ends(cs, name)
  {
    if Repeats(cs, name) && Ends(cs, name) {
      var i: nat, j: nat :| i < j && SameName(cs, name, i, j);
      var n: nat :| Up(cs, name, n).None?;
      var last := LastName(cs, name, n);
      // the chain ends after `last`, but the repetition goes on
      if last < i {
        EndsForGood(cs, name, last + 1, i);
      } else {
        Periodic(cs, name, i, j, last + 1 - i);
        Periodic(cs, name, i, j, last - i);
        EndsForGood(cs, name, last + 1, last + j - i);
      }
    }
  }

  predicate IsLast(cs: Classes, name: string, k: nat) {
    Up(cs, name, k).Some? && Up(cs, name, k + 1).None?
  }

  lemma {:induction false} LastName(cs: Classes, name: string, n: nat) returns (last: nat)
    requires Up(cs, name, n).None?
    ensures last < n && IsLast(cs, name, last)
  {
    if Up(cs, name, n - 1).Some? {
      last := n - 1;
    } else {
      last := LastName(cs, name, n - 1);
    }
  }

  lemma HasLast(cs: Classes, name: string)
    requires Ends(cs, name)
    ensures exists k: nat :: IsLast(cs, name, k)
  {
    var n: nat :| Up(cs, name, n).None?;
    var k := LastName(cs, name, n);
  }

  /** The number of steps up to the end of a chain. */
  ghost function Length(cs: Classes, name: string): (k: nat)
    requires Ends(cs, name)
    ensures IsLast(cs, name, k)
  {
    HasLast(cs, name);
    var k: nat :| IsLast(cs, name, k);
    k
  }

  /** The chain of the superclass is one shorter. */
  lemma LengthStep(cs: Classes, name: string)
    requires Ends(cs, name) && Next(cs, name).Some?
    ensures Ends(cs, Next(cs, name).value) && Length(cs, Next(cs, name).value) + 1 == Length(cs, name)
  {
    var up, k := Next(cs, name).value, Length(cs, name);
    assert Up(cs, name, 1) == Next(cs, name);
    UpShift(cs, name, k - 1);
    UpShift(cs, name, k);
    assert Up(cs, up, k).None?;
    var k' := Length(cs, up);
    if k' < k - 1 {
      EndsForGood(cs, up, k' + 1, k - 1);
    }
    if k' > k - 1 {
      EndsForGood(cs, up, k, k');
    }
  }

  // ---------- the hierarchy ----------

  /** The superclass, if it is a known class. */
  function Sup(cs: Classes, name: string): Option<string> {
    if name in cs && cs[name].superclass != "" && cs[name].superclass in cs then Some(cs[name].superclass) else None
  }

  /** c itself or one of its superclasses. */
  ghost predicate AtOrAbove(cs: Classes, a: string, c: string)
    requires Acyclic(cs)
    decreases if c in cs then Length(cs, c) else 0
  {
    a == c || (Sup(cs, c).Some? && (LengthStep(cs, c); AtOrAbove(cs, a, Sup(cs, c).value)))
  }

  /** The n-th superclass within the module. */
  function Ancestor(cs: Classes, c: string, n: nat): Option<string> {
    if n == 0 then Some(c)
    else
      var below := Ancestor(cs, c, n - 1);
      if below.None? then None else Sup(cs, below.value)
  }

  /** How many superclasses a class has within the module. */
  ghost function Depth(cs: Classes, c: string): nat
    requires Acyclic(cs)
    decreases if c in cs then Length(cs, c) else 0
  {
    if Sup(cs, c).None? then 0
    else
      LengthStep(cs, c);
      1 + Depth(cs, Sup(cs, c).value)
  }

  lemma {:induction false} AncestorShift(cs: Classes, c: string, n: nat)
    requires Sup(cs, c).Some?
    ensures Ancestor(cs, c, n + 1) == Ancestor(cs, Sup(cs, c).value, n)
  {
    if n > 0 {
      AncestorShift(cs, c, n - 1);
    }
  }

  /** The depth is the number of steps to the root, and to nowhere else. */
  lemma {:induction false} DepthIsChainLength(cs: Classes, c: string, n: nat)
    requires Acyclic(cs)
    ensures Ancestor(cs, c, n).Some? <==> n <= Depth(cs, c)
    decreases if c in cs then Length(cs, c) else 0
  {
    if Sup(cs, c).None? {
      if n > 0 {
        NoneAbove(cs, c, n);
      }
    } else {
      LengthStep(cs, c);
      if n > 0 {
        AncestorShift(cs, c, n - 1);
        DepthIsChainLength(cs, Sup(cs, c).value, n - 1);
      }
    }
  }

  lemma {:induction false} NoneAbove(cs: Classes, c: string, n: nat)
    requires Sup(cs, c).None? && n > 0
    ensures Ancestor(cs, c, n).None?
  {
    if n > 1 {
      NoneAbove(cs, c, n - 1);
    } else {
      assert Ancestor(cs, c, 0) == Some(c);
    }
  }

  lemma {:induction false} AboveTrans(cs: Classes, a: string, b: string, c: string)
    requires Acyclic(cs) && AtOrAbove(cs, a, b) && AtOrAbove(cs, b, c)
    ensures AtOrAbove(cs, a, c)
    decreases if c in cs then Length(cs, c) else 0
  {
    if b != c {
      LengthStep(cs, c);
      AboveTrans(cs, a, b, Sup(cs, c).value);
    }
  }
}
