/**
 The legacy class runtime: lazy resolution of classes, which registers their methods and
 lays out their ivars; the one-shot load of categories; and the message lookup that
 walks the superclass chain.
 */
module ClassRuntime {
  import opened Wrappers
  import opened MethodTable
  import opened ClassMetadata
  import opened IvarLayout
  import opened ResolutionState

  class Runtime {
    const info: ClassData
    const classTable: seq<ClassRef>
    const categories: seq<Category>
    const ptrSize: nat
    const hash: HashTable
    ghost const rank: ClassRef -> nat

    var superOf: map<ClassRef, Option<ClassRef>>
    var resolved: set<ClassRef>
    var sizes: map<ClassRef, nat>
    var offsets: map<ClassRef, seq<nat>>
    var categoriesLoaded: bool
    ghost var loaded: nat
    ghost var done: set<ClassRef>

    ghost function Around(): World {
      World(info, classTable, categories, ptrSize, rank)
    }

    ghost function Now(): State
      reads this
    {
      State(superOf, resolved, sizes, offsets, loaded, done)
    }

    ghost predicate Valid()
      reads this, hash, hash.table
    {
      && hash.Valid() && |AllKeys(Around())| <= hash.size
      && Inv(Around(), Now(), hash.contents)
      && loaded == if categoriesLoaded then |categories| else 0
    }

    /** Valid, except that some categories may be loaded already. */
    ghost predicate Loading()
      reads this, hash, hash.table
    {
      && hash.Valid() && |AllKeys(Around())| <= hash.size
      && Inv(Around(), Now(), hash.contents)
    }

    constructor (info: ClassData, classTable: seq<ClassRef>, categories: seq<Category>, ptrSize: nat, hashSize: nat,
                 ghost rank: ClassRef -> nat)
      requires WorldOk(World(info, classTable, categories, ptrSize, rank))
      requires 0 < hashSize && |Universe(info, classTable, categories)| <= hashSize
      ensures Valid() && Around() == World(info, classTable, categories, ptrSize, rank)
      ensures resolved == {} && done == {} && !categoriesLoaded
      ensures fresh(hash) && fresh(hash.table)
    {
      this.info, this.classTable, this.categories := info, classTable, categories;
      this.ptrSize, this.rank := ptrSize, rank;
      hash := new HashTable(hashSize);
      superOf := map c | c in info :: info[c].superclass;
      resolved, sizes, offsets, categoriesLoaded := {}, map[], map[], false;
      loaded, done := 0, {};
      new;
      InvStart(Around(), Now());
    }

    // ---------- registering methods ----------

    /** Registers a method with and then without its type. */
    method RegisterTwice(cls: ClassRef, selector: string, imp: Imp) returns (ok: bool)
      requires hash.Valid()
      modifies hash`contents, hash.table
      ensures hash.Valid() && hash.contents == Registered(old(hash.contents), Key(cls, selector), imp, hash.size)
      ensures ok <==> Key(cls, selector) in hash.contents
    {
      ok := hash.Register(cls, selector, imp);
      if ok {
        ok := hash.Register(cls, selector, imp);
      }
    }

    /** Registers each usable method of a list, up to the first one that finds no room. */
    method RegisterMethodList(cls: ClassRef, ms: seq<Method>)
      requires hash.Valid()
      modifies hash`contents, hash.table
      ensures hash.Valid()
      ensures exists n: nat :: RegisteredUpTo(old(hash.contents), hash.contents, cls, ms, n, hash.size)
    {
      for i := 0 to |ms|
        invariant hash.Valid()
        invariant hash.contents == Define(old(hash.contents), cls, ms[..i])
      {
        assert ms[..i + 1][..i] == ms[..i];
        if Usable(ms[i]) {
          var ok := RegisterTwice(cls, ms[i].selector.value, ms[i].imp.value);
          if !ok {
            assert RegisteredUpTo(old(hash.contents), hash.contents, cls, ms, i, hash.size);
            return;
          }
        }
      }
      assert ms[..|ms|] == ms;
      assert RegisteredUpTo(old(hash.contents), hash.contents, cls, ms, |ms|, hash.size);
    }

    // ---------- resolving classes ----------

    method RegisterOwn(p: ClassRef)
      requires Loading() && p in info && p !in resolved && OwnerIn(Around(), resolved, p)
      modifies this`resolved, hash`contents, hash.table
      ensures Loading() && Now() == old(Now()).(resolved := old(resolved) + {p})
    {
      ghost var w, s, m := Around(), Now(), hash.contents;
      OwnKeys(w, s, m, p);
      RegisterMethodList(p, info[p].methods);
      AllRegistered(m, hash.contents, p, info[p].methods, hash.size, AllKeys(w));
      resolved := resolved + {p};
      OwnRegistered(w, s, m, p);
    }

    /** Registers a class's own methods, once, and resolves its superclass. */
    method RegisterMethods(p: ClassRef)
      requires Loading() && p in info && OwnerIn(Around(), resolved, p)
      requires !p.meta ==> Below(Around(), Now(), p)
      modifies this`superOf, this`resolved, this`sizes, this`offsets, this`done, hash`contents, hash.table
      ensures Loading() && Grows(old(Now()), Now()) && p in resolved
      ensures Pending(Now()) == old(Pending(Now())) + if p.meta || p in old(resolved) then {} else {p}
      ensures p.meta ==> Now() == old(Now()).(resolved := resolved)
      ensures !p.meta && p !in old(resolved) && SuperIn(info, p).Some? ==> SuperIn(info, p).value in done
      decreases info.Keys - resolved, 1
    {
      if p in resolved {
        return;
      }
      ghost var s0 := Now();
      assert p in done ==> LaidOut(Around(), s0, p);
      RegisterOwn(p);
      ghost var s1 := Now();
      ResolutionBegun(Around(), s0, p);
      if superOf[p].Some? && !p.meta {
        ResolveSuper(p);
        GrowsThen(s0, s1, Now());
      }
    }

    method ResolveSuper(p: ClassRef)
      requires Loading() && p in info && !p.meta && info[p].superclass.Some?
      requires forall d :: d in Pending(Now()) ==> d == p || rank(p) < rank(d)
      modifies this`superOf, this`resolved, this`sizes, this`offsets, this`done, hash`contents, hash.table
      ensures Loading() && Grows(old(Now()), Now()) && Pending(Now()) == old(Pending(Now()))
      ensures info[p].superclass.value in done
      decreases info.Keys - resolved, 5
    {
      SuperLower(Around(), p);
      var super := superOf[p].value;
      if super !in resolved {
        var _ := LookupClass(super.name);
      } else {
        NotPending(Around(), Now(), hash.contents, super);
      }
    }

    /** The first class of the table with this name. */
    method FindClass(name: string) returns (cls: Option<ClassRef>)
      ensures cls == FirstNamed(classTable, name)
    {
      for i := 0 to |classTable|
        invariant FirstNamed(classTable[..i], name) == None
      {
        assert classTable[..i + 1][..i] == classTable[..i];
        if classTable[i].name == name {
          FirstNamedPrefix(classTable, name, i + 1);
          return Some(classTable[i]);
        }
      }
      assert classTable[..|classTable|] == classTable;
      return None;
    }

    /** Finds a class by name and makes sure that it, its superclasses and its metaclass
        are resolved and laid out. */
    method LookupClass(name: string) returns (cls: Option<ClassRef>)
      requires Loading()
      requires FirstNamed(classTable, name).Some? ==> Below(Around(), Now(), FirstNamed(classTable, name).value)
      modifies this`superOf, this`resolved, this`sizes, this`offsets, this`done, hash`contents, hash.table
      ensures Loading() && Grows(old(Now()), Now()) && Pending(Now()) == old(Pending(Now()))
      ensures cls == FirstNamed(classTable, name)
      ensures cls.Some? ==> cls.value in done
      decreases info.Keys - resolved, 4
    {
      cls := FindClass(name);
      if cls.None? {
        return;
      }
      var c := cls.value;
      NamedClass(Around(), name);
      if c in resolved {
        NotPending(Around(), Now(), hash.contents, c);
        if info[c].metaclass.Some? && info[c].metaclass.value !in resolved {
          // the metaclass still has to be resolved
        } else {
          return;
        }
      }
      ghost var s0 := Now();
      RegisterMethods(c);
      ghost var s1 := Now();
      FinishClass(c);
      GrowsThen(s0, s1, Now());
    }

    /** The rest of a class's resolution: its metaclass, then its ivars. */
    method FinishClass(c: ClassRef)
      requires Loading() && c in info && !c.meta && c in resolved && c !in done
      requires SuperIn(info, c).Some? ==> SuperIn(info, c).value in done
      modifies this`superOf, this`resolved, this`sizes, this`offsets, this`done, hash`contents, hash.table
      ensures Loading() && Grows(old(Now()), Now()) && Pending(Now()) == old(Pending(Now())) - {c}
      ensures c in done
      decreases info.Keys - resolved, 3
    {
      ghost var s0 := Now();
      ResolveMetaclass(c);
      ghost var s1 := Now();
      FixupIvarOffsets(c);
      GrowsThen(s0, s1, Now());
    }

    method ResolveMetaclass(c: ClassRef)
      requires Loading() && c in info && !c.meta && c in resolved && c !in done
      modifies this`superOf, this`resolved, this`sizes, this`offsets, this`done, hash`contents, hash.table
      ensures Loading() && Grows(old(Now()), Now()) && Pending(Now()) == old(Pending(Now()))
      ensures done == old(done) && MetaLinked(Around(), Now(), c)
      decreases info.Keys - resolved, 2
    {
      LinkMetaclass(c);
      if info[c].metaclass.Some? {
        MetaKnown(Around(), c);
        OwnerOf(Around(), c);
        RegisterMethods(info[c].metaclass.value);
      }
    }

    /** The metaclass of a subclass inherits from the metaclass of its superclass. */
    method LinkMetaclass(c: ClassRef)
      requires Loading() && c in info && !c.meta && c !in done
      modifies this`superOf
      ensures Loading()
      ensures info[c].metaclass.Some? && info[c].superclass.Some? ==>
                && info[c].metaclass.value in superOf
                && superOf[info[c].metaclass.value] == MetaIn(info, info[c].superclass.value)
    {
      if info[c].metaclass.Some? && superOf[c].Some? {
        MetaclassLinked(Around(), Now(), hash.contents, c);
        superOf := superOf[info[c].metaclass.value := info[superOf[c].value].metaclass];
      }
    }

    /** Places the ivars of a class whose superclass is final. */
    method FixupIvarOffsets(c: ClassRef)
      requires Loading() && c in info && !c.meta && c in resolved && c !in done
      requires SuperIn(info, c).Some? ==> SuperIn(info, c).value in done
      requires MetaLinked(Around(), Now(), c)
      modifies this`sizes, this`offsets, this`done
      ensures Loading() && done == old(done) + {c} && Grows(old(Now()), Now())
    {
      var base := 0;
      if superOf[c].Some? {
        if info[c].immortal {
          base := ptrSize;
        } else {
          assert LaidOut(Around(), Now(), superOf[c].value);
          base := sizes[superOf[c].value];
        }
      }
      var placed, end := PlaceIvars(info[c].ivarSizes, base, ptrSize);
      IvarsPlaced(Around(), Now(), hash.contents, c, Layout(placed, end));
      offsets := offsets[c := placed];
      sizes := sizes[c := end];
      done := done + {c};
    }

    // ---------- categories ----------

    method LoadCategory(cat: Category)
      requires Loading() && Pending(Now()) == {} && loaded < |categories| && cat == categories[loaded]
      modifies this`superOf, this`resolved, this`sizes, this`offsets, this`done, this`loaded, hash`contents, hash.table
      ensures Loading() && Pending(Now()) == {} && loaded == old(loaded) + 1
      ensures LayoutsStay(old(Now()), Now())
    {
      ghost var s0 := Now();
      var cls := LookupClass(cat.className);
      ghost var s1 := Now();
      AddCategory(cls, cat);
      LayoutsStayThen(s0, s1, Now());
    }

    method AddCategory(cls: Option<ClassRef>, cat: Category)
      requires Loading() && loaded < |categories| && cat == categories[loaded]
      requires cls == FirstNamed(classTable, cat.className) && (cls.Some? ==> cls.value in done)
      modifies this`loaded, hash`contents, hash.table
      ensures Loading() && loaded == old(loaded) + 1 && LayoutsStay(old(Now()), Now())
    {
      ghost var s, m := Now(), hash.contents;
      RegisterCategory(cls, cat);
      CategoryLoaded(Around(), s, m);
      loaded := loaded + 1;
    }

    /** Registers the methods of a category whose class has been looked up. */
    method RegisterCategory(cls: Option<ClassRef>, cat: Category)
      requires Loading() && loaded < |categories| && cat == categories[loaded]
      requires cls == FirstNamed(classTable, cat.className)
      modifies hash`contents, hash.table
      ensures hash.Valid() && hash.contents.Keys <= AllKeys(Around())
      ensures hash.contents == CategoryDefines(Around(), cat, old(hash.contents))
    {
      ghost var all := AllKeys(Around());
      CategoryFits(Around(), loaded);
      if cls.Some? {
        NamedClass(Around(), cat.className);
        ghost var m := hash.contents;
        RegisterMethodList(cls.value, cat.instanceMethods);
        AllRegistered(m, hash.contents, cls.value, cat.instanceMethods, hash.size, all);
        if info[cls.value].metaclass.Some? {
          m := hash.contents;
          RegisterMethodList(info[cls.value].metaclass.value, cat.classMethods);
          AllRegistered(m, hash.contents, info[cls.value].metaclass.value, cat.classMethods, hash.size, all);
        }
      }
    }

    /** Loads every registered category, the first time it is called. */
    method LoadCategories() returns (firstTime: bool)
      requires Valid() && Pending(Now()) == {}
      modifies this, hash`contents, hash.table
      ensures Valid() && Pending(Now()) == {} && categoriesLoaded
      ensures firstTime <==> !old(categoriesLoaded)
      ensures LayoutsStay(old(Now()), Now())
    {
      if categoriesLoaded {
        return false;
      }
      categoriesLoaded := true;
      ghost var s0 := Now();
      for i := 0 to |categories|
        invariant Loading() && Pending(Now()) == {} && loaded == i && categoriesLoaded
        invariant LayoutsStay(s0, Now())
      {
        ghost var s1 := Now();
        LoadCategory(categories[i]);
        LayoutsStayThen(s0, s1, Now());
      }
      return true;
    }

    // ---------- message lookup ----------

    /** Descends through the superclasses looking for the method. */
    method WalkLookup(cls: ClassRef, selector: string) returns (imp: Option<Imp>)
      requires Valid() && cls in superOf
      ensures imp == Walk(Around(), Now(), hash.contents, cls, selector)
    {
      var c := cls;
      while true
        invariant c in superOf
        invariant Walk(Around(), Now(), hash.contents, cls, selector) ==
                  Walk(Around(), Now(), hash.contents, c, selector)
        decreases rank(c)
      {
        imp := hash.Lookup(c, selector);
        if imp.Some? || superOf[c].None? {
          return;
        }
        c := superOf[c].value;
      }
    }

    /** Sending a message to an instance of the class: loads the categories the first time,
        resolves the class, and finds what the metadata define, whatever was looked up
        before. */
    method MsgLookup(isa: ClassRef, selector: string) returns (imp: Option<Imp>)
      requires Valid() && Pending(Now()) == {} && isa in info && RootsClosed(Around())
      modifies this, hash`contents, hash.table
      ensures Valid() && Pending(Now()) == {}
      ensures imp == Defined(Around(), isa, selector)
      ensures LayoutsStay(old(Now()), Now())
    {
      ghost var s0 := Now();
      var _ := LoadCategories();
      ghost var s1 := Now();
      ResolveForMessage(isa);
      LayoutsStayThen(s0, s1, Now());
      WalkIsDefined(Around(), Now(), hash.contents, isa, selector);
      imp := WalkLookup(isa, selector);
    }

    method ResolveForMessage(isa: ClassRef)
      requires Valid() && Pending(Now()) == {} && isa in info
      modifies this`superOf, this`resolved, this`sizes, this`offsets, this`done, hash`contents, hash.table
      ensures Valid() && Pending(Now()) == {} && Complete(Around(), done, isa)
      ensures LayoutsStay(old(Now()), Now())
    {
      OwnerNamed(Around(), isa);
      if isa !in resolved {
        var _ := LookupClass(isa.name);
      } else {
        AllComplete(Around(), Now(), hash.contents, isa);
      }
    }

    /** Resolves every class of the table. */
    method ResolveAll()
      requires Valid() && Pending(Now()) == {}
      modifies this`superOf, this`resolved, this`sizes, this`offsets, this`done, hash`contents, hash.table
      ensures Valid() && Pending(Now()) == {}
      ensures forall c {:trigger Complete(Around(), done, c)} :: c in info ==> Complete(Around(), done, c)
      ensures LayoutsStay(old(Now()), Now())
    {
      ghost var s0 := Now();
      for i := 0 to |classTable|
        invariant Valid() && Pending(Now()) == {}
        invariant FirstComplete(Around(), done, i) && LayoutsStay(s0, Now())
      {
        ghost var before, s1 := done, Now();
        assert classTable[i] in classTable;
        ResolveForMessage(classTable[i]);
        OneMoreComplete(Around(), before, done, i);
        LayoutsStayThen(s0, s1, Now());
      }
      EachComplete(Around(), done);
    }

    method TakeStep(step: Step) returns (imp: Option<Imp>)
      requires Valid() && Pending(Now()) == {} && RootsClosed(Around()) && Asked(Around(), step)
      modifies this, hash`contents, hash.table
      ensures Valid() && Pending(Now()) == {} && imp == Answer(Around(), step)
      ensures LayoutsStay(old(Now()), Now())
    {
      match step
      case Send(isa, selector) =>
        imp := MsgLookup(isa, selector);
      case Look(name) =>
        var _ := LookupClass(name);
        imp := None;
    }

    /** Any run of class lookups and messages, in any order: every message finds what the
        metadata define, and no layout that has been computed changes. */
    method Run(steps: seq<Step>) returns (found: seq<Option<Imp>>)
      requires Valid() && Pending(Now()) == {} && RootsClosed(Around())
      requires forall i :: 0 <= i < |steps| ==> Asked(Around(), steps[i])
      modifies this, hash`contents, hash.table
      ensures Valid() && Pending(Now()) == {} && |found| == |steps|
      ensures forall i :: 0 <= i < |steps| ==> found[i] == Answer(Around(), steps[i])
      ensures LayoutsStay(old(Now()), Now())
    {
      found := [];
      ghost var w, s0 := Around(), Now();
      while |found| < |steps|
        invariant Valid() && Pending(Now()) == {} && Answered(w, steps, found)
        invariant LayoutsStay(s0, Now())
      {
        ghost var s1 := Now();
        var imp := TakeStep(steps[|found|]);
        OneMoreAnswer(w, steps, found, imp);
        LayoutsStayThen(s0, s1, Now());
        found := found + [imp];
      }
    }
  }

  /** What a program may ask of the runtime: a class, or the method for a message. */
  datatype Step = Look(name: string) | Send(isa: ClassRef, selector: string)

  predicate Asked(w: World, step: Step) {
    step.Send? ==> step.isa in w.info
  }

  /** The answers to the first steps of a run. */
  ghost predicate Answered(w: World, steps: seq<Step>, found: seq<Option<Imp>>) {
    && WorldOk(w) && |found| <= |steps|
    && forall i :: 0 <= i < |found| ==> Asked(w, steps[i]) && found[i] == Answer(w, steps[i])
  }

  lemma OneMoreAnswer(w: World, steps: seq<Step>, found: seq<Option<Imp>>, imp: Option<Imp>)
    requires Answered(w, steps, found) && |found| < |steps|
    requires Asked(w, steps[|found|]) && imp == Answer(w, steps[|found|])
    ensures Answered(w, steps, found + [imp])
  {
  }

  ghost function Answer(w: World, step: Step): Option<Imp>
    requires WorldOk(w) && Asked(w, step)
  {
    if step.Send? then Defined(w, step.isa, step.selector) else None
  }

  lemma {:induction false} FirstNamedPrefix(table: seq<ClassRef>, name: string, n: nat)
    requires n <= |table| && FirstNamed(table[..n], name).Some?
    ensures FirstNamed(table, name) == FirstNamed(table[..n], name)
    decreases |table|
  {
    if n == |table| {
      assert table[..n] == table;
    } else {
      var front := table[..|table| - 1];
      assert front[..n] == table[..n];
      FirstNamedPrefix(front, name, n);
    }
  }

  /** The first n methods of the list are registered, and the next one, if there is one,
      needs a new key when the table is full. */
  ghost predicate RegisteredUpTo(before: map<Key, Imp>, after: map<Key, Imp>, cls: ClassRef, ms: seq<Method>, n: nat,
                                 size: nat) {
    && n <= |ms| && after == Define(before, cls, ms[..n])
    && (n < |ms| ==> Usable(ms[n]) && Key(cls, ms[n].selector.value) !in after && |after| >= size)
  }

  lemma {:induction false} DefineKeys(m: map<Key, Imp>, cls: ClassRef, ms: seq<Method>, all: set<Key>)
    requires m.Keys <= all && (forall d :: d in ms && Usable(d) ==> Key(cls, d.selector.value) in all)
    ensures Define(m, cls, ms).Keys <= all
  {
    if ms != [] {
      assert ms[|ms| - 1] in ms;
      DefineKeys(m, cls, ms[..|ms| - 1], all);
    }
  }

  /** A table with room for every key takes the whole list. */
  lemma AllRegistered(before: map<Key, Imp>, after: map<Key, Imp>, cls: ClassRef, ms: seq<Method>, size: nat,
                      all: set<Key>)
    requires exists n: nat :: RegisteredUpTo(before, after, cls, ms, n, size)
    requires |all| <= size && before.Keys <= all
    requires forall d :: d in ms && Usable(d) ==> Key(cls, d.selector.value) in all
    ensures after == Define(before, cls, ms) && after.Keys <= all
  {
    var n: nat :| RegisteredUpTo(before, after, cls, ms, n, size);
    DefineKeys(before, cls, ms[..n], all);
    assert ms[..|ms|] == ms;
    if n < |ms| {
      assert ms[n] in ms;
      RoomForKey(after, all, Key(cls, ms[n].selector.value));
    }
  }

  lemma RoomForKey(m: map<Key, Imp>, all: set<Key>, key: Key)
    requires m.Keys <= all && key in all
    ensures key in m || |m| < |all|
  {
    if key !in m {
      SubsetSize(m.Keys + {key}, all);
    }
  }
}
