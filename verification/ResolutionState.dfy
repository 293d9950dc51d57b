/**
 The invariant of the class runtime as a property of its state, and the single changes
 that resolving a class, linking its metaclass, laying out its ivars and loading a
 category make to that state.
 */
module ResolutionState {
  import opened Wrappers
  import opened MethodTable
  import opened ClassMetadata
  import opened IvarLayout

  datatype World = World(
    info: ClassData,
    table: seq<ClassRef>,
    cats: seq<Category>,
    ptrSize: nat,
    rank: ClassRef -> nat)

  /** loaded counts the categories loaded so far; done holds the classes that are
      completely resolved and laid out. */
  datatype State = State(
    superOf: map<ClassRef, Option<ClassRef>>,
    resolved: set<ClassRef>,
    sizes: map<ClassRef, nat>,
    offsets: map<ClassRef, seq<nat>>,
    loaded: nat,
    done: set<ClassRef>)

  ghost predicate WorldOk(w: World) {
    WellFormed(w.info, w.table, w.rank) && (w.ptrSize == 4 || w.ptrSize == 8)
  }

  ghost function AllKeys(w: World): set<Key> {
    Universe(w.info, w.table, w.cats)
  }

  // ---------- methods ----------

  ghost function LoadedMethods(w: World, s: State, k: ClassRef): seq<Method>
    requires s.loaded <= |w.cats|
  {
    CategoryMethods(w.info, w.table, w.cats[..s.loaded], k)
  }

  /** The methods of k that have been registered so far, in order of precedence. */
  ghost function Applied(w: World, s: State, k: ClassRef): seq<Method>
    requires s.loaded <= |w.cats|
  {
    (if k in s.resolved then OwnMethods(w.info, k) else []) + LoadedMethods(w, s, k)
  }

  /** The table holds exactly what has been registered, and a class to which a loaded
      category applies is resolved. */
  ghost predicate MethodsOk(w: World, s: State, m: map<Key, Imp>) {
    && s.resolved <= w.info.Keys && s.loaded <= |w.cats|
    && m.Keys <= AllKeys(w)
    && (forall k: ClassRef, sel: string {:trigger Get(m, k, sel)} :: Get(m, k, sel) == LastDef(Applied(w, s, k), sel))
    && (forall k {:trigger LoadedMethods(w, s, k)} :: LoadedMethods(w, s, k) != [] ==> k in s.resolved)
  }

  /** The class of a metaclass is resolved first. */
  ghost predicate OwnersFirst(w: World, resolved: set<ClassRef>) {
    forall k {:trigger OwnerIn(w, resolved, k)} :: k in resolved ==> OwnerIn(w, resolved, k)
  }

  predicate OwnerIn(w: World, resolved: set<ClassRef>, k: ClassRef) {
    k.meta ==> FirstNamed(w.table, k.name).Some? && FirstNamed(w.table, k.name).value in resolved
  }

  // ---------- superclass links ----------

  /** The superclass after resolution, from the metadata alone: a metaclass inherits from
      the metaclass of its class's superclass; that of a root class keeps its own link. */
  function FinalSuper(w: World, c: ClassRef): Option<ClassRef> {
    var owner := FirstNamed(w.table, c.name);
    if c.meta && owner.Some? && SuperIn(w.info, owner.value).Some?
    then MetaIn(w.info, SuperIn(w.info, owner.value).value)
    else SuperIn(w.info, c)
  }

  /** The superclass links never lead back. */
  ghost predicate LinksOk(w: World, s: State) {
    && s.superOf.Keys == w.info.Keys
    && (forall c {:trigger s.superOf[c]} :: c in s.superOf && s.superOf[c].Some? ==>
          s.superOf[c].value in s.superOf && w.rank(s.superOf[c].value) < w.rank(c))
    && (forall c {:trigger s.superOf[c]} :: c in s.superOf ==>
          s.superOf[c] == w.info[c].superclass || s.superOf[c] == FinalSuper(w, c))
  }

  // ---------- layout ----------

  function LayoutAt(s: State, c: ClassRef): Layout {
    if c in s.sizes && c in s.offsets then Layout(s.offsets[c], s.sizes[c]) else Layout([], 0)
  }

  /** Where the ivars of a class start: past its superclass's instance, or past isa alone. */
  function BaseOf(w: World, s: State, c: ClassRef): nat {
    if SuperIn(w.info, c).None? then 0
    else if w.info[c].immortal then w.ptrSize
    else LayoutAt(s, SuperIn(w.info, c).value).end
  }

  /** The metaclass is resolved and inherits from the superclass's metaclass. */
  ghost predicate MetaLinked(w: World, s: State, c: ClassRef) {
    MetaIn(w.info, c).Some? ==>
      var mc := MetaIn(w.info, c).value;
      && mc in s.resolved && mc in s.superOf
      && (SuperIn(w.info, c).Some? ==> s.superOf[mc] == MetaIn(w.info, SuperIn(w.info, c).value))
  }

  ghost predicate LaidOut(w: World, s: State, c: ClassRef)
    requires w.ptrSize == 4 || w.ptrSize == 8
  {
    && c in s.resolved && c in w.info && !c.meta && c in s.sizes && c in s.offsets
    && (SuperIn(w.info, c).Some? ==> SuperIn(w.info, c).value in s.done)
    && MetaLinked(w, s, c)
    && LayoutAt(s, c) == Place(w.info[c].ivarSizes, BaseOf(w, s, c), w.ptrSize)
  }

  ghost predicate LayoutOk(w: World, s: State)
    requires w.ptrSize == 4 || w.ptrSize == 8
  {
    forall c {:trigger LaidOut(w, s, c)} :: c in s.done ==> LaidOut(w, s, c)
  }

  ghost predicate Inv(w: World, s: State, m: map<Key, Imp>) {
    WorldOk(w) && MethodsOk(w, s, m) && OwnersFirst(w, s.resolved) && LinksOk(w, s) && LayoutOk(w, s)
  }

  lemma InvStart(w: World, s: State)
    requires WorldOk(w)
    requires s == State(map c | c in w.info :: w.info[c].superclass, {}, map[], map[], 0, {})
    ensures Inv(w, s, map[])
  {
    assert w.cats[..0] == [];
    forall c | c in w.info && w.info[c].superclass.Some?
      ensures w.info[c].superclass.value in w.info && w.rank(w.info[c].superclass.value) < w.rank(c)
    {
      assert EntryOk(w.info, w.table, w.rank, c);
    }
  }

  // ---------- what resolution is doing ----------

  /** Classes whose resolution has begun and not ended. */
  function Pending(s: State): set<ClassRef> {
    set c | c in s.resolved && !c.meta && c !in s.done
  }

  /** Only subclasses of c are being resolved. */
  ghost predicate Below(w: World, s: State, c: ClassRef) {
    forall d :: d in Pending(s) ==> w.rank(c) < w.rank(d)
  }

  /** Resolution only adds, and what has been laid out is final. */
  ghost predicate Grows(s: State, s': State) {
    s.resolved <= s'.resolved && s.loaded == s'.loaded && LayoutsStay(s, s')
  }

  /** Offsets and instance sizes are computed once. */
  ghost predicate LayoutsStay(s: State, s': State) {
    && s.done <= s'.done
    && forall c {:trigger LayoutAt(s', c)} :: c in s.done ==> LayoutAt(s', c) == LayoutAt(s, c)
  }

  lemma LayoutsStayThen(s: State, s1: State, s2: State)
    requires LayoutsStay(s, s1) && LayoutsStay(s1, s2)
    ensures LayoutsStay(s, s2)
  {
    forall c | c in s.done ensures LayoutAt(s2, c) == LayoutAt(s, c) {
      assert LayoutAt(s1, c) == LayoutAt(s, c);
    }
  }

  lemma GrowsThen(s: State, s1: State, s2: State)
    requires Grows(s, s1) && Grows(s1, s2)
    ensures Grows(s, s2)
  {
    LayoutsStayThen(s, s1, s2);
  }

  lemma NotPending(w: World, s: State, m: map<Key, Imp>, c: ClassRef)
    requires Inv(w, s, m) && Below(w, s, c) && c in s.resolved && !c.meta
    ensures c in s.done && LaidOut(w, s, c)
  {
    assert c !in Pending(s);
  }

  /** Marking a class as resolved begins its resolution; nothing else changes. */
  lemma ResolutionBegun(w: World, s: State, p: ClassRef)
    requires p !in s.resolved && p !in s.done && (!p.meta ==> Below(w, s, p))
    ensures var s' := s.(resolved := s.resolved + {p});
      && Grows(s, s')
      && Pending(s') == Pending(s) + (if p.meta then {} else {p})
      && (!p.meta ==> forall d :: d in Pending(s') ==> d == p || w.rank(p) < w.rank(d))
  {
    var s' := s.(resolved := s.resolved + {p});
    assert Pending(s') == Pending(s) + (if p.meta then {} else {p});
    forall c | c in s.done ensures LayoutAt(s', c) == LayoutAt(s, c) {}
  }

  /** The superclass of a class is a class, of lower rank, and found under its name; and
      linking the metaclass keeps the ranks. */
  lemma SuperLower(w: World, c: ClassRef)
    requires WorldOk(w) && c in w.info && !c.meta && w.info[c].superclass.Some?
    ensures var sup := w.info[c].superclass.value;
      && sup in w.info && !sup.meta && w.rank(sup) < w.rank(c) && FirstNamed(w.table, sup.name) == Some(sup)
      && (w.info[c].metaclass.Some? && w.info[sup].metaclass.Some? ==>
            w.info[sup].metaclass.value in w.info
            && w.rank(w.info[sup].metaclass.value) < w.rank(w.info[c].metaclass.value))
  {
    assert EntryOk(w.info, w.table, w.rank, c);
    assert EntryOk(w.info, w.table, w.rank, w.info[c].superclass.value);
  }

  lemma MetaKnown(w: World, c: ClassRef)
    requires WorldOk(w) && c in w.info && w.info[c].metaclass.Some?
    ensures w.info[c].metaclass.value in w.info && w.info[c].metaclass.value.meta
  {
    assert EntryOk(w.info, w.table, w.rank, c);
  }

  lemma OwnerOf(w: World, c: ClassRef)
    requires WorldOk(w) && c in w.info && !c.meta && w.info[c].metaclass.Some?
    ensures FirstNamed(w.table, w.info[c].metaclass.value.name) == Some(c)
  {
    MetaKnown(w, c);
    var mc := w.info[c].metaclass.value;
    assert EntryOk(w.info, w.table, w.rank, mc);
    NamedClass(w, mc.name);
    assert SameMeta(w.info, c, FirstNamed(w.table, mc.name).value);
  }

  // ---------- single changes ----------

  /** Registering a class's own methods. */
  lemma OwnKeys(w: World, s: State, m: map<Key, Imp>, p: ClassRef)
    requires MethodsOk(w, s, m) && p in w.info
    ensures m.Keys <= AllKeys(w)
    ensures forall d :: d in w.info[p].methods && Usable(d) ==> Key(p, d.selector.value) in AllKeys(w)
  {
  }

  lemma OwnRegistered(w: World, s: State, m: map<Key, Imp>, p: ClassRef)
    requires Inv(w, s, m) && p in w.info && p !in s.resolved && OwnerIn(w, s.resolved, p)
    requires Define(m, p, w.info[p].methods).Keys <= AllKeys(w)
    ensures Inv(w, s.(resolved := s.resolved + {p}), Define(m, p, w.info[p].methods))
  {
    var s' := s.(resolved := s.resolved + {p});
    OwnMethodsAdded(w, s, m, p);
    forall k | k in s'.resolved ensures OwnerIn(w, s'.resolved, k) {
      assert OwnerIn(w, s.resolved, k);
    }
    forall c | c in s.done ensures LaidOut(w, s', c) {
      assert LaidOut(w, s, c);
    }
  }

  lemma OwnMethodsAdded(w: World, s: State, m: map<Key, Imp>, p: ClassRef)
    requires MethodsOk(w, s, m) && p in w.info && p !in s.resolved
    requires Define(m, p, w.info[p].methods).Keys <= AllKeys(w)
    ensures MethodsOk(w, s.(resolved := s.resolved + {p}), Define(m, p, w.info[p].methods))
  {
    var s' := s.(resolved := s.resolved + {p});
    var m' := Define(m, p, w.info[p].methods);
    forall k: ClassRef, sel: string ensures Get(m', k, sel) == LastDef(Applied(w, s', k), sel) {
      DefineGet(m, p, w.info[p].methods, k, sel);
      assert Get(m, k, sel) == LastDef(Applied(w, s, k), sel);
      if k == p {
        assert LoadedMethods(w, s, p) == [];
        assert Applied(w, s, p) == [] && Applied(w, s', p) == w.info[p].methods;
      } else {
        assert Applied(w, s', k) == Applied(w, s, k);
      }
    }
    forall k ensures LoadedMethods(w, s', k) != [] ==> k in s'.resolved {
      assert LoadedMethods(w, s', k) == LoadedMethods(w, s, k);
    }
  }

  /** Methods depend on what is resolved and loaded, not on links and layouts. */
  lemma MethodsKept(w: World, s: State, s': State, m: map<Key, Imp>)
    requires MethodsOk(w, s, m) && s'.resolved == s.resolved && s'.loaded == s.loaded
    ensures MethodsOk(w, s', m)
  {
    forall k ensures LoadedMethods(w, s', k) == LoadedMethods(w, s, k) && Applied(w, s', k) == Applied(w, s, k) {}
  }

  /** Linking the metaclass of c to the metaclass of its superclass. */
  lemma MetaclassLinked(w: World, s: State, m: map<Key, Imp>, c: ClassRef)
    requires Inv(w, s, m) && c in w.info && !c.meta && c !in s.done
    requires w.info[c].metaclass.Some? && w.info[c].superclass.Some?
    ensures w.info[c].superclass.value in w.info
    ensures var mc, superMeta := w.info[c].metaclass.value, w.info[w.info[c].superclass.value].metaclass;
      Inv(w, s.(superOf := s.superOf[mc := superMeta]), m)
  {
    SuperLower(w, c);
    MetaKnown(w, c);
    var mc := w.info[c].metaclass.value;
    OwnerOf(w, c);
    var s' := s.(superOf := s.superOf[mc := w.info[w.info[c].superclass.value].metaclass]);
    MethodsKept(w, s, s', m);
    forall d | d in s.done ensures LaidOut(w, s', d) {
      LayoutKept(w, s, s', c, d);
    }
  }

  /** Linking another class's metaclass leaves a layout as it was. */
  lemma LayoutKept(w: World, s: State, s': State, c: ClassRef, d: ClassRef)
    requires WorldOk(w) && LayoutOk(w, s) && c in w.info && !c.meta && c !in s.done && d in s.done
    requires w.info[c].metaclass.Some?
    requires s' == s.(superOf := s'.superOf) && s.superOf.Keys <= s'.superOf.Keys
    requires forall k :: k in s.superOf && k != w.info[c].metaclass.value ==> s'.superOf[k] == s.superOf[k]
    ensures LaidOut(w, s', d)
  {
    assert LaidOut(w, s, d) && !SameMeta(w.info, c, d);
    assert BaseOf(w, s', d) == BaseOf(w, s, d);
  }

  /** Laying out a class whose superclass is final. */
  lemma IvarsPlaced(w: World, s: State, m: map<Key, Imp>, c: ClassRef, l: Layout)
    requires Inv(w, s, m) && c in w.info && !c.meta && c in s.resolved && c !in s.done
    requires SuperIn(w.info, c).Some? ==> SuperIn(w.info, c).value in s.done
    requires MetaLinked(w, s, c)
    requires l == Place(w.info[c].ivarSizes, BaseOf(w, s, c), w.ptrSize)
    ensures var s' := s.(sizes := s.sizes[c := l.end], offsets := s.offsets[c := l.offsets], done := s.done + {c});
      Inv(w, s', m) && Grows(s, s')
  {
    var s' := s.(sizes := s.sizes[c := l.end], offsets := s.offsets[c := l.offsets], done := s.done + {c});
    MethodsKept(w, s, s', m);
    forall d | d in s'.done ensures LaidOut(w, s', d) {
      if d != c {
        assert LaidOut(w, s, d);
      }
      assert BaseOf(w, s', d) == BaseOf(w, s, d) by {
        assert SuperIn(w.info, d).Some? ==> SuperIn(w.info, d).value in s.done;
      }
    }
  }

  // ---------- loading categories ----------

  /** The method table after loading one category. */
  function CategoryDefines(w: World, cat: Category, m: map<Key, Imp>): map<Key, Imp> {
    var cls := FirstNamed(w.table, cat.className);
    if cls.None? then m
    else
      var m1 := Define(m, cls.value, cat.instanceMethods);
      var mc := MetaIn(w.info, cls.value);
      if mc.None? then m1 else Define(m1, mc.value, cat.classMethods)
  }

  lemma CategoryGet(w: World, cat: Category, m: map<Key, Imp>, k: ClassRef, sel: string)
    requires WorldOk(w)
    ensures Get(CategoryDefines(w, cat, m), k, sel) ==
            var d := LastDef(Adds(w.info, w.table, cat, k), sel); if d.Some? then d else Get(m, k, sel)
  {
    var cls := FirstNamed(w.table, cat.className);
    if cls.Some? {
      var c := cls.value;
      var m1 := Define(m, c, cat.instanceMethods);
      DefineGet(m, c, cat.instanceMethods, k, sel);
      NamedClass(w, cat.className);
      if MetaIn(w.info, c).Some? {
        MetaKnown(w, c);
        DefineGet(m1, MetaIn(w.info, c).value, cat.classMethods, k, sel);
      }
      assert [] + cat.classMethods == cat.classMethods && cat.instanceMethods + [] == cat.instanceMethods;
    }
  }

  /** Loading the next category, whose class and metaclass have been resolved. */
  lemma CategoryLoaded(w: World, s: State, m: map<Key, Imp>)
    requires Inv(w, s, m) && s.loaded < |w.cats|
    requires var cls := FirstNamed(w.table, w.cats[s.loaded].className); cls.Some? ==> cls.value in s.done
    requires CategoryDefines(w, w.cats[s.loaded], m).Keys <= AllKeys(w)
    ensures Inv(w, s.(loaded := s.loaded + 1), CategoryDefines(w, w.cats[s.loaded], m))
  {
    var cat, s' := w.cats[s.loaded], s.(loaded := s.loaded + 1);
    var m' := CategoryDefines(w, cat, m);
    forall k: ClassRef, sel: string ensures Get(m', k, sel) == LastDef(Applied(w, s', k), sel) {
      LoadedAfter(w, s, k);
      CategoryGet(w, cat, m, k, sel);
      assert Get(m, k, sel) == LastDef(Applied(w, s, k), sel);
      LastDefAppend(Applied(w, s, k), Adds(w.info, w.table, cat, k), sel);
    }
    forall k ensures LoadedMethods(w, s', k) != [] ==> k in s'.resolved {
      LoadedAfter(w, s, k);
      if Adds(w.info, w.table, cat, k) != [] {
        AddsResolved(w, s, m, cat, k);
      }
      assert LoadedMethods(w, s, k) != [] ==> k in s.resolved;
    }
    assert LayoutOk(w, s') by {
      forall c | c in s.done ensures LaidOut(w, s', c) {
        assert LaidOut(w, s, c);
      }
    }
  }

  lemma LoadedAfter(w: World, s: State, k: ClassRef)
    requires s.loaded < |w.cats|
    ensures var s' := s.(loaded := s.loaded + 1); var adds := Adds(w.info, w.table, w.cats[s.loaded], k);
      && LoadedMethods(w, s', k) == LoadedMethods(w, s, k) + adds
      && Applied(w, s', k) == Applied(w, s, k) + adds
  {
    assert w.cats[..s.loaded + 1][..s.loaded] == w.cats[..s.loaded];
  }

  lemma AddsResolved(w: World, s: State, m: map<Key, Imp>, cat: Category, k: ClassRef)
    requires Inv(w, s, m) && Adds(w.info, w.table, cat, k) != []
    requires FirstNamed(w.table, cat.className).Some? ==> FirstNamed(w.table, cat.className).value in s.done
    ensures k in s.resolved
  {
    assert LaidOut(w, s, FirstNamed(w.table, cat.className).value);
  }

  lemma CategoryFits(w: World, n: nat)
    requires n < |w.cats| && WorldOk(w)
    ensures var cls := FirstNamed(w.table, w.cats[n].className);
      cls.Some? ==>
        && (forall m :: m in w.cats[n].instanceMethods && Usable(m) ==> Key(cls.value, m.selector.value) in AllKeys(w))
        && (MetaIn(w.info, cls.value).Some? ==> forall m :: m in w.cats[n].classMethods && Usable(m) ==>
              Key(MetaIn(w.info, cls.value).value, m.selector.value) in AllKeys(w))
  {
    var cat := w.cats[n];
    var cls := FirstNamed(w.table, cat.className);
    if cls.Some? {
      NamedClass(w, cat.className);
      AddsFit(w, n, cls.value);
      if MetaIn(w.info, cls.value).Some? {
        MetaKnown(w, cls.value);
        AddsFit(w, n, MetaIn(w.info, cls.value).value);
      }
    }
  }

  lemma AddsFit(w: World, n: nat, k: ClassRef)
    requires n < |w.cats| && k in w.info
    ensures forall m :: m in Adds(w.info, w.table, w.cats[n], k) && Usable(m) ==> Key(k, m.selector.value) in AllKeys(w)
  {
    CategoryPrefix(w.info, w.table, w.cats, n + 1, k);
    assert w.cats[..n + 1][..n] == w.cats[..n];
    forall m | m in Adds(w.info, w.table, w.cats[n], k) ensures m in AllMethods(w.info, w.table, w.cats, k) {
      assert m in CategoryMethods(w.info, w.table, w.cats[..n + 1], k);
    }
  }

  lemma {:induction false} FirstNamedIn(table: seq<ClassRef>, name: string)
    requires FirstNamed(table, name).Some?
    ensures FirstNamed(table, name).value in table && FirstNamed(table, name).value.name == name
  {
    var n := |table| - 1;
    if FirstNamed(table[..n], name).Some? {
      FirstNamedIn(table[..n], name);
    }
  }

  /** A name found in the table is the name of a class, not of a metaclass. */
  lemma NamedClass(w: World, name: string)
    requires WorldOk(w) && FirstNamed(w.table, name).Some?
    ensures var c := FirstNamed(w.table, name).value; c in w.info && !c.meta && c.name == name
  {
    FirstNamedIn(w.table, name);
    assert EntryOk(w.info, w.table, w.rank, FirstNamed(w.table, name).value);
  }

  // ---------- categories win ----------

  /** Category i is the last one that defines the selector for the class. */
  ghost predicate LastDefining(w: World, k: ClassRef, sel: string, i: nat) {
    && i < |w.cats| && DefIn(w, k, sel, i).Some?
    && forall j :: i < j < |w.cats| ==> DefIn(w, k, sel, j).None?
  }

  /** What the first n categories define, and what category n - 1 alone defines. */
  ghost function DefUpTo(w: World, k: ClassRef, sel: string, n: nat): Option<Imp>
    requires n <= |w.cats|
  {
    LastDef(CategoryMethods(w.info, w.table, w.cats[..n], k), sel)
  }

  ghost function DefIn(w: World, k: ClassRef, sel: string, i: nat): Option<Imp>
    requires i < |w.cats|
  {
    LastDef(Adds(w.info, w.table, w.cats[i], k), sel)
  }

  lemma NextCategory(w: World, k: ClassRef, sel: string, n: nat)
    requires n < |w.cats|
    ensures DefUpTo(w, k, sel, n + 1) == if DefIn(w, k, sel, n).Some? then DefIn(w, k, sel, n)
                                          else DefUpTo(w, k, sel, n)
  {
    assert w.cats[..n + 1][..n] == w.cats[..n];
    LastDefAppend(CategoryMethods(w.info, w.table, w.cats[..n], k), Adds(w.info, w.table, w.cats[n], k), sel);
  }

  /** The last definition of a list that may have gaps. */
  function LastOf(defs: seq<Option<Imp>>): Option<Imp> {
    if defs == [] then None
    else if defs[|defs| - 1].Some? then defs[|defs| - 1]
    else LastOf(defs[..|defs| - 1])
  }

  lemma {:induction false} LastOfAt(defs: seq<Option<Imp>>) returns (i: nat)
    ensures if LastOf(defs).Some?
            then i < |defs| && defs[i] == LastOf(defs) && forall j :: i < j < |defs| ==> defs[j].None?
            else forall j :: 0 <= j < |defs| ==> defs[j].None?
  {
    i := 0;
    if defs != [] {
      i := |defs| - 1;
      if defs[i].None? {
        i := LastOfAt(defs[..|defs| - 1]);
      }
    }
  }

  ghost function Defs(w: World, k: ClassRef, sel: string, n: nat): seq<Option<Imp>>
    requires n <= |w.cats|
  {
    seq(n, i requires 0 <= i < n => DefIn(w, k, sel, i))
  }

  lemma {:induction false} DefUpToLast(w: World, k: ClassRef, sel: string, n: nat)
    requires n <= |w.cats|
    ensures DefUpTo(w, k, sel, n) == LastOf(Defs(w, k, sel, n))
  {
    if n > 0 {
      NextCategory(w, k, sel, n - 1);
      DefUpToLast(w, k, sel, n - 1);
      assert Defs(w, k, sel, n)[..n - 1] == Defs(w, k, sel, n - 1);
    }
  }

  lemma CategoryLast(w: World, k: ClassRef, sel: string, n: nat) returns (i: nat)
    requires n <= |w.cats|
    ensures var d := DefUpTo(w, k, sel, n);
      if d.Some?
      then i < n && DefIn(w, k, sel, i) == d && forall j :: i < j < n ==> DefIn(w, k, sel, j).None?
      else forall j :: 0 <= j < n ==> DefIn(w, k, sel, j).None?
  {
    DefUpToLast(w, k, sel, n);
    i := LastOfAt(Defs(w, k, sel, n));
    forall j | 0 <= j < n ensures DefIn(w, k, sel, j) == Defs(w, k, sel, n)[j] {}
  }

  /** Once all categories are loaded, a resolved class has for each selector the definition
      of the last category that has one, or else the last one of its own lists; nothing
      that is resolved later changes that. */
  lemma CategoriesWin(w: World, s: State, m: map<Key, Imp>, k: ClassRef, sel: string)
    requires Inv(w, s, m) && s.loaded == |w.cats| && k in s.resolved
    ensures forall i: nat :: LastDefining(w, k, sel, i) ==>
              Get(m, k, sel) == DefIn(w, k, sel, i)
    ensures (forall i: nat :: !LastDefining(w, k, sel, i)) ==> Get(m, k, sel) == LastDef(OwnMethods(w.info, k), sel)
  {
    AllApplied(w, s, m, k, sel);
    LastCategory(w, k, sel);
  }

  lemma AllApplied(w: World, s: State, m: map<Key, Imp>, k: ClassRef, sel: string)
    requires Inv(w, s, m) && s.loaded == |w.cats| && k in s.resolved
    ensures Get(m, k, sel) == LastDef(OwnMethods(w.info, k) + CategoryMethods(w.info, w.table, w.cats, k), sel)
  {
    assert w.cats[..s.loaded] == w.cats;
    assert Get(m, k, sel) == LastDef(Applied(w, s, k), sel);
  }

  lemma LastCategory(w: World, k: ClassRef, sel: string)
    ensures var found := LastDef(OwnMethods(w.info, k) + CategoryMethods(w.info, w.table, w.cats, k), sel);
      && (forall i: nat :: LastDefining(w, k, sel, i) ==> found == DefIn(w, k, sel, i))
      && ((forall i: nat :: !LastDefining(w, k, sel, i)) ==> found == LastDef(OwnMethods(w.info, k), sel))
  {
    assert w.cats[..|w.cats|] == w.cats;
    LastDefAppend(OwnMethods(w.info, k), CategoryMethods(w.info, w.table, w.cats, k), sel);
    var i := CategoryLast(w, k, sel, |w.cats|);
    if LastDef(CategoryMethods(w.info, w.table, w.cats, k), sel).Some? {
      assert LastDefining(w, k, sel, i);
    }
  }

  // ---------- layout ----------

  /** The ivars of a laid-out class lie past those it inherits (past isa alone if it is
      immortal), in order, apart, within the instance, and without wasted space. */
  lemma LayoutCorrect(w: World, s: State, m: map<Key, Imp>, c: ClassRef)
    requires Inv(w, s, m) && c in s.done
    ensures c in w.info && c in s.offsets && c in s.sizes && |s.offsets[c]| == |w.info[c].ivarSizes|
    ensures SuperIn(w.info, c).Some? && !w.info[c].immortal ==>
              && SuperIn(w.info, c).value in s.done && SuperIn(w.info, c).value in s.sizes
              && BaseOf(w, s, c) == s.sizes[SuperIn(w.info, c).value]
    ensures BaseOf(w, s, c) <= s.sizes[c]
    ensures forall i :: 0 <= i < |s.offsets[c]| ==>
              BaseOf(w, s, c) <= s.offsets[c][i] && s.offsets[c][i] + w.info[c].ivarSizes[i] <= s.sizes[c]
    ensures forall i, j :: 0 <= i < j < |s.offsets[c]| ==>
              s.offsets[c][i] + w.info[c].ivarSizes[i] <= s.offsets[c][j]
    ensures forall i :: 0 <= i < |s.offsets[c]| && PowerOfTwo(Alignment(w.info[c].ivarSizes[i], w.ptrSize)) ==>
              s.offsets[c][i] % Alignment(w.info[c].ivarSizes[i], w.ptrSize) == 0
    ensures SuperIn(w.info, c).None? ==> BaseOf(w, s, c) == 0
    ensures SuperIn(w.info, c).Some? && w.info[c].immortal ==> BaseOf(w, s, c) == w.ptrSize
    ensures Tight(w.info[c].ivarSizes, s.offsets[c], s.sizes[c], BaseOf(w, s, c), w.ptrSize)
  {
    assert LaidOut(w, s, c);
    PlacedTight(w.info[c].ivarSizes, BaseOf(w, s, c), w.ptrSize);
    if SuperIn(w.info, c).Some? {
      assert LaidOut(w, s, SuperIn(w.info, c).value);
    }
    PlacedApart(w.info[c].ivarSizes, BaseOf(w, s, c), w.ptrSize);
    forall i | 0 <= i < |s.offsets[c]| && PowerOfTwo(Alignment(w.info[c].ivarSizes[i], w.ptrSize))
      ensures s.offsets[c][i] % Alignment(w.info[c].ivarSizes[i], w.ptrSize) == 0
    {
      PlacedAligned(w.info[c].ivarSizes, BaseOf(w, s, c), w.ptrSize, i);
    }
  }

  // ---------- the superclass walk ----------

  /** The implementation that the nearest class up the chain has for a selector. */
  ghost function Walk(w: World, s: State, m: map<Key, Imp>, c: ClassRef, sel: string): Option<Imp>
    requires LinksOk(w, s) && c in s.superOf
    decreases w.rank(c)
  {
    if Get(m, c, sel).Some? then Get(m, c, sel)
    else if s.superOf[c].None? then None
    else Walk(w, s, m, s.superOf[c].value, sel)
  }

  /** A metaclass at the top inherits from nothing or from its own class. */
  ghost predicate RootsClosed(w: World) {
    forall c {:trigger MetaIn(w.info, c)} ::
      c in w.info && !c.meta && w.info[c].superclass.None? && MetaIn(w.info, c).Some? ==>
      SuperIn(w.info, MetaIn(w.info, c).value) == None || SuperIn(w.info, MetaIn(w.info, c).value) == Some(c)
  }

  /** Completely resolved: the class, or the class of the metaclass, is laid out. */
  predicate Complete(w: World, done: set<ClassRef>, c: ClassRef) {
    var owner := FirstNamed(w.table, c.name);
    owner.Some? && owner.value in done && (c.meta ==> MetaIn(w.info, owner.value) == Some(c))
  }

  ghost predicate FirstComplete(w: World, done: set<ClassRef>, n: nat) {
    n <= |w.table| && forall k :: 0 <= k < n ==> Complete(w, done, w.table[k])
  }

  lemma OneMoreComplete(w: World, before: set<ClassRef>, done: set<ClassRef>, n: nat)
    requires FirstComplete(w, before, n) && before <= done && n < |w.table| && Complete(w, done, w.table[n])
    ensures FirstComplete(w, done, n + 1)
  {
  }

  lemma EachComplete(w: World, done: set<ClassRef>)
    requires WorldOk(w) && FirstComplete(w, done, |w.table|)
    ensures forall c {:trigger Complete(w, done, c)} :: c in w.info ==> Complete(w, done, c)
  {
    forall c | c in w.info ensures Complete(w, done, c) {
      assert c in w.table;
    }
  }

  lemma OwnerNamed(w: World, c: ClassRef)
    requires WorldOk(w) && c in w.info
    ensures FirstNamed(w.table, c.name).Some?
    ensures c.meta ==> MetaIn(w.info, FirstNamed(w.table, c.name).value) == Some(c)
  {
    assert EntryOk(w.info, w.table, w.rank, c);
  }

  /** Between lookups, whatever is resolved is completely resolved. */
  lemma AllComplete(w: World, s: State, m: map<Key, Imp>, c: ClassRef)
    requires Inv(w, s, m) && Pending(s) == {} && c in s.resolved
    ensures Complete(w, s.done, c)
  {
    OwnerNamed(w, c);
    NamedClass(w, c.name);
    assert OwnerIn(w, s.resolved, c) && EntryOk(w.info, w.table, w.rank, c);
    assert FirstNamed(w.table, c.name).value !in Pending(s);
  }

  lemma CompleteStep(w: World, s: State, m: map<Key, Imp>, c: ClassRef)
    requires Inv(w, s, m) && RootsClosed(w) && c in w.info && Complete(w, s.done, c)
    ensures c in s.resolved && s.superOf[c] == FinalSuper(w, c)
    ensures s.superOf[c].Some? ==> s.superOf[c].value in w.info && Complete(w, s.done, s.superOf[c].value)
  {
    var o := FirstNamed(w.table, c.name).value;
    assert LaidOut(w, s, o);
    assert EntryOk(w.info, w.table, w.rank, c) && EntryOk(w.info, w.table, w.rank, o);
    if SuperIn(w.info, o).Some? {
      var sup := SuperIn(w.info, o).value;
      assert LaidOut(w, s, sup);
      SuperLower(w, o);
      if MetaIn(w.info, sup).Some? {
        OwnerOf(w, sup);
      }
    } else if c.meta {
      assert MetaIn(w.info, o) == Some(c);
    }
  }

  /** When everything is loaded and resolved, the table holds every key of the metadata. */
  lemma KeysComplete(w: World, s: State, m: map<Key, Imp>)
    requires Inv(w, s, m) && RootsClosed(w) && s.loaded == |w.cats|
    requires forall c {:trigger Complete(w, s.done, c)} :: c in w.info ==> Complete(w, s.done, c)
    ensures m.Keys == AllKeys(w)
  {
    assert w.cats[..s.loaded] == w.cats;
    forall key | key in AllKeys(w) ensures key in m {
      var k, sel := key.cls, key.selector;
      assert Complete(w, s.done, k);
      CompleteStep(w, s, m, k);
      assert Applied(w, s, k) == AllMethods(w.info, w.table, w.cats, k);
      MemberDefines(AllMethods(w.info, w.table, w.cats, k), sel);
      assert Get(m, k, sel) == LastDef(Applied(w, s, k), sel);
    }
  }

  /** The implementation that the metadata alone give a class for a selector: that of the
      nearest class up the chain whose own lists and categories define it, in which the
      last definition counts. */
  ghost function Defined(w: World, c: ClassRef, sel: string): Option<Imp>
    requires WorldOk(w) && c in w.info
    decreases w.rank(c)
  {
    var own := LastDef(AllMethods(w.info, w.table, w.cats, c), sel);
    if own.Some? then own
    else if FinalSuper(w, c).None? then None
    else
      FinalSuperLower(w, c);
      Defined(w, FinalSuper(w, c).value, sel)
  }

  lemma FinalSuperLower(w: World, c: ClassRef)
    requires WorldOk(w) && c in w.info && FinalSuper(w, c).Some?
    ensures FinalSuper(w, c).value in w.info && w.rank(FinalSuper(w, c).value) < w.rank(c)
  {
    assert EntryOk(w.info, w.table, w.rank, c);
    var owner := FirstNamed(w.table, c.name);
    if c.meta && SuperIn(w.info, owner.value).Some? {
      NamedClass(w, c.name);
      SuperLower(w, owner.value);
    }
  }

  /** Once the categories are loaded, what the walk finds for a completely resolved class
      depends on the metadata alone, not on which classes were looked up, and when. */
  lemma {:induction false} WalkIsDefined(w: World, s: State, m: map<Key, Imp>, c: ClassRef, sel: string)
    requires Inv(w, s, m) && RootsClosed(w) && s.loaded == |w.cats|
    requires c in w.info && Complete(w, s.done, c)
    ensures Walk(w, s, m, c, sel) == Defined(w, c, sel)
    decreases w.rank(c)
  {
    CompleteStep(w, s, m, c);
    assert w.cats[..s.loaded] == w.cats;
    assert Get(m, c, sel) == LastDef(Applied(w, s, c), sel);
    if s.superOf[c].Some? {
      WalkIsDefined(w, s, m, s.superOf[c].value, sel);
    }
  }
}
