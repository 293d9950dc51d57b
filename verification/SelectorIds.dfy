/**
 Numbering the selectors for flat dispatch: those known at build time in the order of the
 generated table, then those that only the method table holds, while there are ids.
 */
module SelectorIds {
  import opened Wrappers
  import opened Probing
  import opened MethodTable
  import opened ClassMetadata
  import opened ResolutionState
  import S = SelectorMap

  /** The ids are the positions in a list of distinct names. */
  ghost predicate Numbered(ids: map<string, nat>, names: seq<string>) {
    && |ids| == |names|
    && (forall i {:trigger names[i]} :: 0 <= i < |names| ==> names[i] in ids && ids[names[i]] == i)
    && (forall n {:trigger n in ids} :: n in ids ==> ids[n] < |names| && names[ids[n]] == n)
  }

  /** The map from each name of a list to its position. */
  function Positions(names: seq<string>): map<string, nat> {
    if names == [] then map[]
    else
      var n := |names| - 1;
      Positions(names[..n])[names[n] := n]
  }

  lemma {:induction false} PositionsNumbered(names: seq<string>)
    requires Distinct(names)
    ensures Numbered(Positions(names), names)
  {
    if names != [] {
      var n := |names| - 1;
      PositionsNumbered(names[..n]);
      assert names[n] !in Positions(names[..n]);
      assert names == names[..n] + [names[n]];
    }
  }

  /** The generated table numbers the selectors known at build time in its own order. */
  method NumberKnown(ids: S.SelMap, names: seq<string>)
    requires ids.Valid() && ids.contents == map[] && Distinct(names) && |names| <= ids.size
    modifies ids`contents, ids.slots
    ensures ids.Valid() && ids.contents == Positions(names)
  {
    for i := 0 to |names|
      invariant ids.Valid() && ids.contents == Positions(names[..i])
    {
      assert names[..i + 1][..i] == names[..i];
      PositionsNumbered(names[..i]);
      ids.Insert(names[i], i);
    }
    assert names[..|names|] == names;
  }

  /** The next id for a name that has none, if there is one left. */
  function Next(ids: map<string, nat>, name: string, selCount: nat): map<string, nat> {
    if name !in ids && |ids| < selCount then ids[name := |ids|] else ids
  }

  /** The ids after visiting these slots of the method table. */
  function Found(t: seq<Slot<Key, Imp>>, ids: map<string, nat>, selCount: nat): map<string, nat> {
    if t == [] then ids
    else
      var n := |t| - 1;
      var before := Found(t[..n], ids, selCount);
      if t[n].Full? then Next(before, t[n].key.selector, selCount) else before
  }

  lemma FoundOne(t: seq<Slot<Key, Imp>>, j: nat, ids: map<string, nat>, selCount: nat)
    requires j < |t|
    ensures Found(t[..j + 1], ids, selCount) ==
            if t[j].Full? then Next(Found(t[..j], ids, selCount), t[j].key.selector, selCount)
            else Found(t[..j], ids, selCount)
  {
    assert t[..j + 1][..j] == t[..j];
  }

  /** Every selector of the method table has an id of its own, unless all the ids are
      taken; and ids that were given before stay. */
  lemma {:induction false} FoundNumbered(t: seq<Slot<Key, Imp>>, ids: map<string, nat>, selCount: nat,
                                         names: seq<string>)
    returns (names': seq<string>)
    requires Numbered(ids, names) && |ids| <= selCount
    ensures Numbered(Found(t, ids, selCount), names') && names <= names' && |names'| <= selCount
    ensures |names'| < selCount ==>
              forall i :: 0 <= i < |t| && t[i].Full? ==> t[i].key.selector in Found(t, ids, selCount)
  {
    names' := names;
    if t != [] {
      var n := |t| - 1;
      var before := Found(t[..n], ids, selCount);
      names' := FoundNumbered(t[..n], ids, selCount, names);
      if t[n].Full? && t[n].key.selector !in before && |before| < selCount {
        names' := names' + [t[n].key.selector];
      }
    }
  }

  method NumberOne(ids: S.SelMap, name: string, next: nat, selCount: nat) returns (next': nat)
    requires ids.Valid() && next == |ids.contents| && BelowSentinel(ids.contents)
    requires next <= selCount <= S.NO_ID && selCount < ids.size
    modifies ids`contents, ids.slots
    ensures ids.Valid() && ids.contents == Next(old(ids.contents), name, selCount)
    ensures next' == |ids.contents| <= selCount && BelowSentinel(ids.contents)
  {
    next' := next;
    var id := ids.ToId(name);
    if id == S.NO_ID && next < selCount {
      ids.Insert(name, next);
      next' := next + 1;
    }
  }

  ghost predicate BelowSentinel(ids: map<string, nat>) {
    forall n :: n in ids ==> ids[n] < S.NO_ID
  }

  /** Selectors that occur only at run time get the next ids, as long as there are any. */
  method NumberFound(ids: S.SelMap, hash: HashTable, known: nat, selCount: nat)
    requires hash.table.Length == hash.size + 1 && hash.table as object != ids.slots
    requires ids.Valid() && known == |ids.contents| && BelowSentinel(ids.contents)
    requires known <= selCount <= S.NO_ID && selCount < ids.size
    modifies ids`contents, ids.slots
    ensures ids.Valid() && ids.contents == Found(hash.table[..hash.size], old(ids.contents), selCount)
  {
    var next := known;
    ghost var t, start := hash.table[..hash.size], ids.contents;
    for j := 0 to hash.size
      invariant ids.Valid() && hash.table[..hash.size] == t
      invariant ids.contents == Found(t[..j], start, selCount)
      invariant next == |ids.contents| <= selCount && BelowSentinel(ids.contents)
    {
      FoundOne(t, j, start, selCount);
      assert hash.table[j] == t[j];
      if hash.table[j].Full? {
        next := NumberOne(ids, hash.table[j].key.selector, next, selCount);
      }
    }
    assert t[..hash.size] == t;
  }

  /** Phase 2.5: numbers the selectors that the method table holds besides the known. */
  method NumberRest(ids: S.SelMap, hash: HashTable, bits: nat, known: seq<string>) returns (ghost names: seq<string>)
    requires ids.Valid() && ids.contents == Positions(known) && ids.size == 2 * S.Pow2(bits)
    requires S.Pow2(bits) <= S.NO_ID && Distinct(known) && |known| <= S.Pow2(bits)
    requires hash.Valid() && hash.table as object != ids.slots
    modifies ids`contents, ids.slots
    ensures ids.Valid() && Numbered(ids.contents, names) && known <= names && |names| <= S.Pow2(bits)
    ensures EachHasId(hash.contents, ids.contents) <==> |NamesOf(known) + SelectorsIn(hash.contents)| <= S.Pow2(bits)
  {
    PositionsNumbered(known);
    ghost var t := hash.table[..hash.size];
    names := FoundNumbered(t, ids.contents, S.Pow2(bits), known);
    NumberFound(ids, hash, |known|, S.Pow2(bits));
    FoundExactly(t, Home(hash.size), hash.contents, known, S.Pow2(bits));
  }

  // ---------- for which selectors the ids suffice ----------

  function NamesOf(known: seq<string>): set<string> {
    set n | n in known
  }

  function SelectorsIn(m: map<Key, Imp>): set<string> {
    set k | k in m :: k.selector
  }

  function SelectorsAmong(t: seq<Slot<Key, Imp>>): set<string> {
    if t == [] then {}
    else
      var n := |t| - 1;
      SelectorsAmong(t[..n]) + if t[n].Full? then {t[n].key.selector} else {}
  }

  predicate EachHasId(m: map<Key, Imp>, ids: map<string, nat>) {
    forall k :: k in m ==> k.selector in ids
  }

  lemma {:induction false} AmongSlots(t: seq<Slot<Key, Imp>>, n: string)
    ensures n in SelectorsAmong(t) <==> exists i :: 0 <= i < |t| && t[i].Full? && t[i].key.selector == n
  {
    if t != [] {
      AmongSlots(t[..|t| - 1], n);
    }
  }

  lemma AmongIsIn(t: seq<Slot<Key, Imp>>, home: Key -> nat, m: map<Key, Imp>)
    requires Holds(t, home, m)
    ensures SelectorsAmong(t) == SelectorsIn(m)
  {
    forall n ensures n in SelectorsAmong(t) <==> n in SelectorsIn(m) {
      AmongSlots(t, n);
      if n in SelectorsIn(m) {
        var k :| k in m && k.selector == n;
        assert Occurs(t, k, m[k]);
      }
    }
  }

  /** Exactly the selectors met are numbered as long as an id is left. */
  lemma {:induction false} FoundKeys(t: seq<Slot<Key, Imp>>, ids: map<string, nat>, selCount: nat)
    requires |ids| <= selCount
    ensures var found := Found(t, ids, selCount);
      && |found| <= selCount && ids.Keys <= found.Keys <= ids.Keys + SelectorsAmong(t)
      && (|found| < selCount ==> found.Keys == ids.Keys + SelectorsAmong(t))
  {
    if t != [] {
      var n := |t| - 1;
      FoundKeys(t[..n], ids, selCount);
      if t[n].Full? {
        NextKeys(Found(t[..n], ids, selCount), t[n].key.selector, selCount, ids.Keys,
                 ids.Keys + SelectorsAmong(t[..n]));
      }
    }
  }

  lemma NextKeys(ids: map<string, nat>, name: string, selCount: nat, low: set<string>, high: set<string>)
    requires |ids| <= selCount && low <= ids.Keys <= high && (|ids| < selCount ==> ids.Keys == high)
    ensures var next := Next(ids, name, selCount);
      && |next| <= selCount && low <= next.Keys <= high + {name}
      && (|next| < selCount ==> next.Keys == high + {name})
  {
    var next := Next(ids, name, selCount);
    if name !in ids && |ids| < selCount {
      assert next.Keys == ids.Keys + {name};
      assert |next| == |ids| + 1;
    }
  }

  lemma {:induction false} PositionsKeys(names: seq<string>)
    ensures Positions(names).Keys == NamesOf(names)
  {
    if names != [] {
      var n := |names| - 1;
      PositionsKeys(names[..n]);
      assert names == names[..n] + [names[n]];
    }
  }

  lemma {:induction false} SameSize<T>(a: set<T>, b: set<T>)
    requires a <= b && |b| <= |a|
    ensures a == b
  {
    if a != b {
      var x :| x in b && x !in a;
      SubsetSize(a, b - {x});
    }
  }

  /** Every selector of the method table gets an id if and only if these and the known ones
      together are not more than the ids. */
  lemma FoundExactly(t: seq<Slot<Key, Imp>>, home: Key -> nat, m: map<Key, Imp>, known: seq<string>, selCount: nat)
    requires Holds(t, home, m) && Distinct(known) && |known| <= selCount
    ensures EachHasId(m, Found(t, Positions(known), selCount)) <==> |NamesOf(known) + SelectorsIn(m)| <= selCount
  {
    var found, all := Found(t, Positions(known), selCount), NamesOf(known) + SelectorsIn(m);
    PositionsNumbered(known);
    FoundKeys(t, Positions(known), selCount);
    PositionsKeys(known);
    AmongIsIn(t, home, m);
    assert |found.Keys| == |found|;
    if EachHasId(m, found) {
      assert found.Keys == all;
    }
    if |all| <= selCount {
      if |found| == selCount {
        SameSize(found.Keys, all);
      }
      assert found.Keys == all;
    }
  }

  // ---------- the condition on the metadata ----------

  /** Every selector that has an id at build time or a method in some list. */
  ghost function Selectors(w: World, known: seq<string>): set<string> {
    NamesOf(known) + set k | k in AllKeys(w) :: k.selector
  }

  ghost predicate IdsSuffice(w: World, known: seq<string>, bits: nat) {
    |Selectors(w, known)| <= S.Pow2(bits)
  }

  /** The selectors that have a method but were not seen at build time. */
  ghost function Unseen(w: World, known: seq<string>): set<string> {
    (set k | k in AllKeys(w) :: k.selector) - NamesOf(known)
  }

  lemma {:induction false} NamesCount(known: seq<string>)
    requires Distinct(known)
    ensures |NamesOf(known)| == |known|
  {
    if known != [] {
      var n := |known| - 1;
      NamesCount(known[..n]);
      assert known == known[..n] + [known[n]];
      assert NamesOf(known) == NamesOf(known[..n]) + {known[n]};
    }
  }

  /** With the generated number of bits, the unseen selectors have exactly the ids that are
      left up to the next power of two. */
  lemma RoomForUnseen(w: World, known: seq<string>)
    requires Distinct(known)
    ensures |known| <= S.SelCount(|known|)
    ensures IdsSuffice(w, known, S.SelBits(|known|)) <==> |Unseen(w, known)| <= S.SelCount(|known|) - |known|
  {
    S.SizesFit(|known|);
    NamesCount(known);
    assert Selectors(w, known) == NamesOf(known) + Unseen(w, known);
  }

  /** There is no id left when the number of known selectors is itself a power of two above
      one: then one unseen selector is one too many. */
  lemma NoRoomAtPowers(w: World, known: seq<string>, b: nat)
    requires Distinct(known) && b > 0 && |known| == S.Pow2(b)
    ensures IdsSuffice(w, known, S.SelBits(|known|)) <==> forall k :: k in AllKeys(w) ==> k.selector in known
  {
    S.NoneToSpare(|known|, b);
    RoomForUnseen(w, known);
    NoneUnseen(w, known);
  }

  lemma NoneUnseen(w: World, known: seq<string>)
    ensures |Unseen(w, known)| == 0 <==> forall k :: k in AllKeys(w) ==> k.selector in known
  {
    if k :| k in AllKeys(w) && k.selector !in known {
      assert k.selector in Unseen(w, known);
    } else {
      assert Unseen(w, known) == {};
    }
  }
}
