/**
 A program for which the flat table loses a method: two selectors are known at build time,
 which leaves no id, and a class has a method with a third one.
 */
module LostSelector {
  import opened Wrappers
  import opened MethodTable
  import opened ClassMetadata
  import opened ResolutionState
  import opened ClassRuntime
  import opened SelectorIds
  import opened FlatDispatch
  import S = SelectorMap

  const A := ClassRef(1, "A", false)
  const Methods := [Method(Some("unseen"), Some(7))]
  const Info: ClassData := map[A := ClassInfo(None, None, Methods, [], false)]
  const Known := ["first", "second"]

  function Rank(c: ClassRef): nat {
    0
  }

  ghost function Program(): World {
    World(Info, [A], [], 4, Rank)
  }

  lemma ProgramOk()
    ensures WorldOk(Program()) && RootsClosed(Program())
    ensures FirstNamed([A], "A") == Some(A)
  {
    assert FirstNamed([A][..0], "A").None?;
    assert EntryOk(Info, [A], Rank, A);
  }

  lemma OneMethod()
    requires WorldOk(Program())
    ensures AllKeys(Program()) == {Key(A, "unseen")} && |AllKeys(Program())| == 1
    ensures forall n :: Defined(Program(), A, n) == if n == "unseen" then Some(7) else None
  {
    var all := AllMethods(Info, [A], [], A);
    assert all == Methods;
    assert Methods[0] in Methods && Methods[..0] == [];
    assert Key(A, "unseen") in AllKeys(Program());
    forall n ensures LastDef(all, n) == if n == "unseen" then Some(7) else None {}
  }

  /** There is no id for it. */
  lemma OneTooMany()
    requires WorldOk(Program())
    ensures Distinct(Known) && S.SelBits(|Known|) == 1 && !IdsSuffice(Program(), Known, S.SelBits(|Known|))
  {
    OneMethod();
    assert S.BitLength(1) == 1;
    NoRoomAtPowers(Program(), Known, 1);
  }

  lemma UnseenLost(src: Source)
    requires SourceOk(src) && Settled(src.w, src.s, src.m) && src.w == Program() && !AnswersDefined(src)
    ensures FlatAnswer(src, A, "unseen").None?
  {
    OneMethod();
    var c, n :| c in src.w.info && FlatAnswer(src, c, n) != Defined(src.w, c, n);
    SettledWalk(src, c, n);
    assert n == "unseen";
  }

  /** The program has started: its categories, of which there are none, are loaded. */
  method Start() returns (rt: Runtime)
    ensures fresh(rt) && fresh(rt.hash) && fresh(rt.hash.table)
    ensures rt.Valid() && rt.Around() == Program() && Pending(rt.Now()) == {} && rt.categoriesLoaded
    ensures rt.classTable == [A]
  {
    ProgramOk();
    OneMethod();
    rt := new Runtime(Info, [A], [], 4, 64, Rank);
    assert rt.Around() == Program();
    var _ := rt.LoadCategories();
  }

  method Fill(rt: Runtime, flat: Dispatcher)
    requires rt.Valid() && rt.Around() == Program() && Pending(rt.Now()) == {} && rt.categoriesLoaded
    requires rt.classTable == [A] && flat.Empty() && flat.bits == 1 && flat.slots == 1
    requires rt.hash.table as object != flat.ids.slots && rt.hash.table as object != flat.cells
    requires rt.hash.table as object != flat.cache.entries
    modifies flat`classId, flat`src, flat.cells, flat.ids`contents, flat.ids.slots
    modifies rt`superOf, rt`resolved, rt`sizes, rt`offsets, rt`done, rt.hash`contents, rt.hash.table
    ensures flat.Answers() && flat.src.w == Program() && FlatAnswer(flat.src, A, "unseen").None?
  {
    ProgramOk();
    OneTooMany();
    flat.Fill(rt, Known);
    UnseenLost(flat.src);
  }

  method Filled() returns (flat: Dispatcher)
    ensures fresh(flat) && fresh(flat.cache.entries)
    ensures flat.Answers() && flat.src.w == Program() && FlatAnswer(flat.src, A, "unseen").None?
    ensures flat.cache.names(4) == "unseen"
  {
    var rt := Start();
    flat := new Dispatcher(1, 1, (addr: bv32) => "unseen");
    Fill(rt, flat);
  }

  /** A run: the filled table has no implementation for a method that the class defines. */
  method Run() returns (imp: Option<Imp>)
    ensures WorldOk(Program()) && Defined(Program(), A, "unseen") == Some(7)
    ensures imp.None?
  {
    ProgramOk();
    OneMethod();
    var flat := Filled();
    imp := flat.Lookup(A, 4);
  }
}
