/**
 What the compiler emits for the legacy runtime: classes with their metaclasses, method
 lists and ivars, and categories; and the definitions that these lists amount to.
 */
module ClassMetadata {
  import opened Wrappers
  import opened MethodTable

  /** An entry of a method list; entries without a selector or implementation are skipped. */
  datatype Method = Method(selector: Option<string>, imp: Option<Imp>)

  predicate Usable(m: Method) {
    m.selector.Some? && m.imp.Some?
  }

  datatype ClassInfo = ClassInfo(
    superclass: Option<ClassRef>,
    metaclass: Option<ClassRef>,
    methods: seq<Method>,
    ivarSizes: seq<nat>,
    immortal: bool)

  datatype Category = Category(className: string, instanceMethods: seq<Method>, classMethods: seq<Method>)

  type ClassData = map<ClassRef, ClassInfo>

  /** The first class of the table with this name. */
  function FirstNamed(table: seq<ClassRef>, name: string): Option<ClassRef> {
    if table == [] then None
    else
      var n := |table| - 1;
      var before := FirstNamed(table[..n], name);
      if before.Some? then before else if table[n].name == name then Some(table[n]) else None
  }

  function SuperIn(info: ClassData, c: ClassRef): Option<ClassRef> {
    if c in info then info[c].superclass else None
  }

  function MetaIn(info: ClassData, c: ClassRef): Option<ClassRef> {
    if c in info then info[c].metaclass else None
  }

  /** The metadata of a closed, acyclic set of classes: each name belongs to a class, which
      is registered before its metaclass, and superclasses and metaclasses are registered.
      The ranks witness that no superclass chain comes back, now or after the metaclasses
      have been linked. */
  ghost predicate WellFormed(info: ClassData, table: seq<ClassRef>, rank: ClassRef -> nat) {
    && (forall c :: c in table <==> c in info)
    && (forall c {:trigger EntryOk(info, table, rank, c)} :: c in info ==> EntryOk(info, table, rank, c))
    && (forall c, d {:trigger SameMeta(info, c, d)} :: c in info && d in info && SameMeta(info, c, d) ==> c == d)
  }

  predicate SameMeta(info: ClassData, c: ClassRef, d: ClassRef) {
    !c.meta && !d.meta && MetaIn(info, c).Some? && MetaIn(info, c) == MetaIn(info, d)
  }

  ghost predicate EntryOk(info: ClassData, table: seq<ClassRef>, rank: ClassRef -> nat, c: ClassRef)
    requires c in info
  {
    && (c.meta ==> info[c].metaclass.None?)
    && (!c.meta ==> FirstNamed(table, c.name) == Some(c))
    && (c.meta ==> FirstNamed(table, c.name).Some? && !FirstNamed(table, c.name).value.meta
                   && MetaIn(info, FirstNamed(table, c.name).value) == Some(c))
    && (info[c].superclass.Some? ==>
          var s := info[c].superclass.value;
          && s in info && rank(s) < rank(c)
          && (!c.meta ==> !s.meta)
          && (!c.meta && info[c].metaclass.Some? && MetaIn(info, s).Some? ==>
                rank(MetaIn(info, s).value) < rank(info[c].metaclass.value)))
    && (info[c].metaclass.Some? ==> info[c].metaclass.value in info && info[c].metaclass.value.meta)
  }

  // ---------- method lists as definitions ----------

  /** The implementation that a list of methods defines for a selector: the last one. */
  function LastDef(ms: seq<Method>, selector: string): Option<Imp> {
    if ms == [] then None
    else
      var n := |ms| - 1;
      if Usable(ms[n]) && ms[n].selector.value == selector then ms[n].imp else LastDef(ms[..n], selector)
  }

  /** The table after registering a list for a class. */
  function Define(m: map<Key, Imp>, cls: ClassRef, ms: seq<Method>): map<Key, Imp> {
    if ms == [] then m
    else
      var n := |ms| - 1;
      var before := Define(m, cls, ms[..n]);
      if Usable(ms[n]) then before[Key(cls, ms[n].selector.value) := ms[n].imp.value] else before
  }

  function Get(m: map<Key, Imp>, cls: ClassRef, selector: string): Option<Imp> {
    if Key(cls, selector) in m then Some(m[Key(cls, selector)]) else None
  }

  lemma {:induction false} DefineGet(m: map<Key, Imp>, cls: ClassRef, ms: seq<Method>, c: ClassRef, selector: string)
    ensures Get(Define(m, cls, ms), c, selector) ==
            if c == cls && LastDef(ms, selector).Some? then LastDef(ms, selector) else Get(m, c, selector)
  {
    if ms != [] {
      DefineGet(m, cls, ms[..|ms| - 1], c, selector);
    }
  }

  lemma {:induction false} LastDefAppend(a: seq<Method>, b: seq<Method>, selector: string)
    ensures LastDef(a + b, selector) ==
            if LastDef(b, selector).Some? then LastDef(b, selector) else LastDef(a, selector)
  {
    if b == [] {
      assert a + b == a;
    } else {
      assert (a + b)[..|a + b| - 1] == a + b[..|b| - 1];
      LastDefAppend(a, b[..|b| - 1], selector);
    }
  }

  lemma {:induction false} LastDefMember(ms: seq<Method>, selector: string)
    requires LastDef(ms, selector).Some?
    ensures exists m :: m in ms && Usable(m) && m.selector.value == selector
  {
    var n := |ms| - 1;
    if Usable(ms[n]) && ms[n].selector.value == selector {
      assert ms[n] in ms;
    } else {
      LastDefMember(ms[..n], selector);
    }
  }

  lemma {:induction false} MemberDefines(ms: seq<Method>, selector: string)
    requires exists m :: m in ms && Usable(m) && m.selector.value == selector
    ensures LastDef(ms, selector).Some?
  {
    var n := |ms| - 1;
    if !(Usable(ms[n]) && ms[n].selector.value == selector) {
      var m :| m in ms && Usable(m) && m.selector.value == selector;
      assert m in ms[..n];
      MemberDefines(ms[..n], selector);
    }
  }

  /** What one category adds to a class: its instance methods to the class it names, its
      class methods to the metaclass of that class. */
  function Adds(info: ClassData, table: seq<ClassRef>, cat: Category, k: ClassRef): seq<Method> {
    var cls := FirstNamed(table, cat.className);
    if cls.None? then []
    else
      (if cls.value == k then cat.instanceMethods else []) +
      (if MetaIn(info, cls.value) == Some(k) then cat.classMethods else [])
  }

  function CategoryMethods(info: ClassData, table: seq<ClassRef>, cats: seq<Category>, k: ClassRef): seq<Method> {
    if cats == [] then []
    else
      var n := |cats| - 1;
      CategoryMethods(info, table, cats[..n], k) + Adds(info, table, cats[n], k)
  }

  function OwnMethods(info: ClassData, k: ClassRef): seq<Method> {
    if k in info then info[k].methods else []
  }

  /** All methods of a class in order of precedence, the last winning. */
  function AllMethods(info: ClassData, table: seq<ClassRef>, cats: seq<Category>, k: ClassRef): seq<Method> {
    OwnMethods(info, k) + CategoryMethods(info, table, cats, k)
  }

  /** Every key that any method list may register. */
  ghost function Universe(info: ClassData, table: seq<ClassRef>, cats: seq<Category>): set<Key> {
    set k, m | k in info && m in AllMethods(info, table, cats, k) && Usable(m) :: Key(k, m.selector.value)
  }

  lemma {:induction false} CategoryPrefix(info: ClassData, table: seq<ClassRef>, cats: seq<Category>, n: nat,
                                          k: ClassRef)
    requires n <= |cats|
    ensures forall m :: m in CategoryMethods(info, table, cats[..n], k) ==> m in CategoryMethods(info, table, cats, k)
    decreases |cats|
  {
    if n == |cats| {
      assert cats[..n] == cats;
    } else {
      var front := cats[..|cats| - 1];
      assert front[..n] == cats[..n];
      CategoryPrefix(info, table, front, n, k);
    }
  }
}
