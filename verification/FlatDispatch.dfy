/**
 The flat dispatch table of the legacy runtime: one row of implementations per class and
 one column per selector id, filled once from the method hash table by copying the row of
 the superclass and overwriting it with the class's own methods.
 */
module FlatDispatch {
  import opened Wrappers
  import opened Probing
  import opened MethodTable
  import opened ClassMetadata
  import opened ResolutionState
  import opened ClassRuntime
  import opened SelectorIds
  import S = SelectorMap

  // ---------- rows ----------

  /** The first cell of row i, in rows of sc cells: class_id << SEL_BITS. */
  function RowStart(i: nat, sc: nat): nat {
    if i == 0 then 0 else RowStart(i - 1, sc) + sc
  }

  lemma {:induction false} RowFits(i: nat, slots: nat, sc: nat)
    requires i < slots
    ensures RowStart(i, sc) + sc <= RowStart(slots, sc)
  {
    if i + 1 < slots {
      RowFits(i, slots - 1, sc);
    }
  }

  lemma {:induction false} RowTwice(i: nat, sc: nat)
    ensures RowStart(i, 2 * sc) == 2 * RowStart(i, sc)
  {
    if i > 0 {
      RowTwice(i - 1, sc);
    }
  }

  /** x | y on natural numbers. */
  function Or(x: nat, y: nat): nat {
    if x == 0 then y
    else if y == 0 then x
    else 2 * Or(x / 2, y / 2) + if x % 2 == 1 || y % 2 == 1 then 1 else 0
  }

  /** An id that fits in the low bits is added by the bitwise or: rows never overlap. */
  lemma {:induction false} OrDisjoint(i: nat, id: nat, bits: nat)
    requires id < S.Pow2(bits)
    ensures Or(RowStart(i, S.Pow2(bits)), id) == RowStart(i, S.Pow2(bits)) + id
  {
    if bits > 0 {
      RowTwice(i, S.Pow2(bits - 1));
      OrDisjoint(i, id / 2, bits - 1);
    }
  }

  function RowOf<T>(cells: seq<T>, i: nat, sc: nat): (r: seq<T>)
    requires RowStart(i, sc) + sc <= |cells|
    ensures |r| == sc
  {
    cells[RowStart(i, sc)..RowStart(i, sc) + sc]
  }

  /** Only the cells of row i differ. */
  ghost predicate OnlyRow<T>(before: seq<T>, after: seq<T>, i: nat, sc: nat) {
    && |after| == |before|
    && forall k :: 0 <= k < |before| && !(RowStart(i, sc) <= k < RowStart(i, sc) + sc) ==> after[k] == before[k]
  }

  lemma OtherRow<T>(before: seq<T>, after: seq<T>, i: nat, sc: nat, j: nat)
    requires OnlyRow(before, after, i, sc) && i != j
    requires RowStart(i, sc) + sc <= |before| && RowStart(j, sc) + sc <= |before|
    ensures RowOf(after, j, sc) == RowOf(before, j, sc)
  {
    if i < j {
      RowFits(i, j, sc);
    } else {
      RowFits(j, i, sc);
    }
  }

  // ---------- filling a row ----------

  /** The state of the class runtime that the table is filled from. */
  datatype Source = Source(
    w: World,
    s: State,
    m: map<Key, Imp>,
    known: seq<string>,
    ids: map<string, nat>,
    classId: map<ClassRef, nat>)

  ghost predicate SourceOk(src: Source) {
    Inv(src.w, src.s, src.m) && ArePositions(src.classId, src.w.table)
  }

  /** The class ids are the positions in the class table. */
  ghost predicate ArePositions(classId: map<ClassRef, nat>, table: seq<ClassRef>) {
    && (forall i {:trigger table[i]} :: 0 <= i < |table| ==> table[i] in classId && classId[table[i]] == i)
    && (forall c {:trigger c in classId} :: c in classId ==> classId[c] < |table| && table[classId[c]] == c)
  }

  /** The row answers as the walk from class c does, for every selector that has an id. */
  ghost predicate RowRight(r: seq<Option<Imp>>, src: Source, c: ClassRef)
    requires SourceOk(src) && c in src.s.superOf
  {
    forall n {:trigger src.ids[n]} :: n in src.ids ==>
      src.ids[n] < |r| && r[src.ids[n]] == Walk(src.w, src.s, src.m, c, n)
  }

  /** Row r is row `below` overwritten with the class's own methods. */
  ghost predicate Overwrites(r: seq<Option<Imp>>, below: seq<Option<Imp>>, ids: map<string, nat>, m: map<Key, Imp>,
                             c: ClassRef) {
    && |r| == |below|
    && forall n {:trigger ids[n]} :: n in ids ==>
         ids[n] < |r| && r[ids[n]] == if Get(m, c, n).Some? then Get(m, c, n) else below[ids[n]]
  }

  predicate Blank(r: seq<Option<Imp>>) {
    forall k :: 0 <= k < |r| ==> r[k].None?
  }

  /** A row is right when it overwrites the superclass's, or for a root class a blank one. */
  lemma RowInherits(r: seq<Option<Imp>>, below: seq<Option<Imp>>, src: Source, c: ClassRef)
    requires SourceOk(src) && c in src.s.superOf && Overwrites(r, below, src.ids, src.m, c)
    requires if src.s.superOf[c].None? then Blank(below) else RowRight(below, src, src.s.superOf[c].value)
    ensures RowRight(r, src, c)
  {
    forall n | n in src.ids ensures src.ids[n] < |r| && r[src.ids[n]] == Walk(src.w, src.s, src.m, c, n) {
      assert src.ids[n] < |r|;
    }
  }

  /** The class's own methods among the first slots of the method table. */
  function OwnAmong(t: seq<Slot<Key, Imp>>, cls: ClassRef, n: string): Option<Imp> {
    if t == [] then None
    else
      var j := |t| - 1;
      if t[j].Full? && t[j].key == Key(cls, n) then Some(t[j].value) else OwnAmong(t[..j], cls, n)
  }

  lemma {:induction false} OwnAmongIs(t: seq<Slot<Key, Imp>>, m: map<Key, Imp>, cls: ClassRef, n: string)
    requires forall i :: 0 <= i < |t| && t[i].Full? ==> t[i].key in m && m[t[i].key] == t[i].value
    ensures OwnAmong(t, cls, n).Some? ==> OwnAmong(t, cls, n) == Get(m, cls, n)
    ensures OwnAmong(t, cls, n).None? ==> forall i :: 0 <= i < |t| && t[i].Full? ==> t[i].key != Key(cls, n)
  {
    if t != [] {
      OwnAmongIs(t[..|t| - 1], m, cls, n);
    }
  }

  /** Visiting every slot of the table finds every method of the class. */
  lemma OwnComplete(t: seq<Slot<Key, Imp>>, home: Key -> nat, m: map<Key, Imp>, cls: ClassRef, n: string)
    requires Holds(t, home, m)
    ensures OwnAmong(t, cls, n) == Get(m, cls, n)
  {
    OwnAmongIs(t, m, cls, n);
    if Key(cls, n) in m {
      assert Occurs(t, Key(cls, n), m[Key(cls, n)]);
    }
  }

  /** After visiting the first slots: row r is `below` with what they define. */
  ghost predicate OverwrittenBy(r: seq<Option<Imp>>, below: seq<Option<Imp>>, ids: map<string, nat>,
                                t: seq<Slot<Key, Imp>>, c: ClassRef) {
    && |r| == |below|
    && forall n {:trigger ids[n]} :: n in ids ==>
         ids[n] < |r| && r[ids[n]] == if OwnAmong(t, c, n).Some? then OwnAmong(t, c, n) else below[ids[n]]
  }

  /** The row after one more slot. */
  function WithSlot(r: seq<Option<Imp>>, slot: Slot<Key, Imp>, ids: map<string, nat>, c: ClassRef): seq<Option<Imp>> {
    if slot.Full? && slot.key.cls == c && slot.key.selector in ids && ids[slot.key.selector] < |r|
    then r[ids[slot.key.selector] := Some(slot.value)]
    else r
  }

  lemma SlotOverwrites(r: seq<Option<Imp>>, below: seq<Option<Imp>>, ids: map<string, nat>,
                       t: seq<Slot<Key, Imp>>, j: nat, c: ClassRef, names: seq<string>)
    requires j < |t| && Numbered(ids, names) && |names| <= |r| && OverwrittenBy(r, below, ids, t[..j], c)
    ensures OverwrittenBy(WithSlot(r, t[j], ids, c), below, ids, t[..j + 1], c)
  {
    var r' := WithSlot(r, t[j], ids, c);
    assert t[..j + 1][..j] == t[..j];
    forall n | n in ids
      ensures r'[ids[n]] == if OwnAmong(t[..j + 1], c, n).Some? then OwnAmong(t[..j + 1], c, n) else below[ids[n]]
    {
      assert ids[n] < |r|;
      if t[j].Full? && t[j].key.cls == c && t[j].key.selector in ids {
        assert ids[t[j].key.selector] == ids[n] ==> names[ids[n]] == t[j].key.selector;
      }
    }
  }

  /** Writes one slot's method into row i, if it is the class's own and has an id. */
  method FillSlot(cells: array<Option<Imp>>, i: nat, bits: nat, cls: ClassRef, slot: Slot<Key, Imp>, ids: S.SelMap,
                  ghost names: seq<string>)
    requires ids.Valid() && Numbered(ids.contents, names) && |names| <= S.Pow2(bits) <= S.NO_ID
    requires RowStart(i, S.Pow2(bits)) + S.Pow2(bits) <= cells.Length && cells as object != ids.slots
    modifies cells
    ensures OnlyRow(old(cells[..]), cells[..], i, S.Pow2(bits))
    ensures RowOf(cells[..], i, S.Pow2(bits)) ==
            WithSlot(RowOf(old(cells[..]), i, S.Pow2(bits)), slot, ids.contents, cls)
  {
    if slot.Full? && slot.key.cls == cls {
      var sid := ids.ToId(slot.key.selector);
      if sid != S.NO_ID {
        var row := RowStart(i, S.Pow2(bits));
        assert sid < S.Pow2(bits);
        OrDisjoint(i, sid, bits);
        cells[Or(row, sid)] := Some(slot.value);
        assert cells[..] == old(cells[..])[row + sid := Some(slot.value)];
        CellWritten(old(cells[..]), i, S.Pow2(bits), sid, Some(slot.value));
      }
    }
  }

  lemma CellWritten<T>(before: seq<T>, i: nat, sc: nat, id: nat, v: T)
    requires RowStart(i, sc) + sc <= |before| && id < sc
    ensures var after := before[RowStart(i, sc) + id := v];
      OnlyRow(before, after, i, sc) && RowOf(after, i, sc) == RowOf(before, i, sc)[id := v]
  {
  }

  /** Writes the class's own methods, wherever they are in the method table, into row i. */
  method FillOwn(cells: array<Option<Imp>>, i: nat, bits: nat, cls: ClassRef, hash: HashTable, ids: S.SelMap,
                 ghost names: seq<string>)
    requires hash.table.Length == hash.size + 1 && cells as object != hash.table && cells as object != ids.slots
    requires ids.Valid() && Numbered(ids.contents, names) && |names| <= S.Pow2(bits) <= S.NO_ID
    requires RowStart(i, S.Pow2(bits)) + S.Pow2(bits) <= cells.Length
    modifies cells
    ensures OnlyRow(old(cells[..]), cells[..], i, S.Pow2(bits))
    ensures OverwrittenBy(RowOf(cells[..], i, S.Pow2(bits)), RowOf(old(cells[..]), i, S.Pow2(bits)), ids.contents,
                          hash.table[..hash.size], cls)
  {
    ghost var sc, t, before := S.Pow2(bits), hash.table[..hash.size], cells[..];
    for j := 0 to hash.size
      invariant ids.Valid() && OnlyRow(before, cells[..], i, sc)
      invariant OverwrittenBy(RowOf(cells[..], i, sc), RowOf(before, i, sc), ids.contents, t[..j], cls)
    {
      SlotOverwrites(RowOf(cells[..], i, sc), RowOf(before, i, sc), ids.contents, t, j, cls, names);
      assert hash.table[j] == t[j];
      FillSlot(cells, i, bits, cls, hash.table[j], ids, names);
    }
    assert t[..hash.size] == t;
  }

  lemma OwnOverwrites(r: seq<Option<Imp>>, below: seq<Option<Imp>>, ids: map<string, nat>, t: seq<Slot<Key, Imp>>,
                      home: Key -> nat, m: map<Key, Imp>, c: ClassRef)
    requires Holds(t, home, m) && OverwrittenBy(r, below, ids, t, c)
    ensures Overwrites(r, below, ids, m, c)
  {
    forall n | n in ids
      ensures ids[n] < |r| && r[ids[n]] == if Get(m, c, n).Some? then Get(m, c, n) else below[ids[n]]
    {
      OwnComplete(t, home, m, c, n);
    }
  }

  /** memcpy of a row. */
  method CopyRow(cells: array<Option<Imp>>, i: nat, from: nat, sc: nat)
    requires i != from && RowStart(i, sc) + sc <= cells.Length && RowStart(from, sc) + sc <= cells.Length
    modifies cells
    ensures OnlyRow(old(cells[..]), cells[..], i, sc)
    ensures RowOf(cells[..], i, sc) == RowOf(old(cells[..]), from, sc)
  {
    var row, prow := RowStart(i, sc), RowStart(from, sc);
    forall k | row <= k < row + sc {
      cells[k] := cells[k - row + prow];
    }
  }

  // ---------- filling the table ----------

  /** Row i answers for its class when it is filled, and is blank until then. */
  ghost predicate RowState(cells: seq<Option<Imp>>, filled: seq<bool>, sc: nat, src: Source, i: nat)
    requires SourceOk(src) && i < |src.w.table| <= |filled|
  {
    && src.w.table[i] in src.s.superOf && RowStart(i, sc) + sc <= |cells|
    && if filled[i] then RowRight(RowOf(cells, i, sc), src, src.w.table[i]) else Blank(RowOf(cells, i, sc))
  }

  ghost predicate Filling(cells: seq<Option<Imp>>, filled: seq<bool>, sc: nat, src: Source) {
    && SourceOk(src) && |src.w.table| <= |filled|
    && (forall i :: |src.w.table| <= i < |filled| ==> filled[i])
    && (forall i {:trigger RowState(cells, filled, sc, src, i)}  ::
          0 <= i < |src.w.table| ==> RowState(cells, filled, sc, src, i))
  }

  /** The superclass's row is filled, or there is no superclass. */
  ghost predicate Ready(filled: seq<bool>, src: Source, i: nat)
    requires SourceOk(src) && i < |src.w.table| <= |filled|
  {
    && src.w.table[i] in src.s.superOf
    && var sup := src.s.superOf[src.w.table[i]];
       sup.None? || (sup.value in src.classId && filled[src.classId[sup.value]])
  }

  lemma InTable(src: Source, c: ClassRef)
    requires SourceOk(src) && c in src.w.info
    ensures c in src.classId && src.classId[c] < |src.w.table| && src.w.table[src.classId[c]] == c
  {
    assert c in src.w.table;
  }

  /** The superclass is in the table, at another position. */
  lemma SuperInTable(src: Source, i: nat)
    requires SourceOk(src) && i < |src.w.table|
    ensures src.w.table[i] in src.w.info && src.w.table[i] in src.s.superOf
    ensures src.s.superOf[src.w.table[i]].Some? ==>
              var sup := src.s.superOf[src.w.table[i]].value;
              && sup in src.s.superOf && sup in src.classId && src.w.table[src.classId[sup]] == sup
              && src.w.rank(sup) < src.w.rank(src.w.table[i])
  {
    assert src.w.table[i] in src.w.table;
    if src.s.superOf[src.w.table[i]].Some? {
      InTable(src, src.s.superOf[src.w.table[i]].value);
    }
  }

  lemma RowFilled(before: seq<Option<Imp>>, after: seq<Option<Imp>>, filled: seq<bool>, sc: nat, src: Source, i: nat)
    requires Filling(before, filled, sc, src) && i < |src.w.table| && OnlyRow(before, after, i, sc)
    requires src.w.table[i] in src.s.superOf && RowStart(i, sc) + sc <= |before|
    requires RowRight(RowOf(after, i, sc), src, src.w.table[i])
    ensures Filling(after, filled[i := true], sc, src)
  {
    var filled' := filled[i := true];
    forall j | 0 <= j < |src.w.table| ensures RowState(after, filled', sc, src, j) {
      assert RowState(before, filled, sc, src, j);
      if j != i {
        OtherRow(before, after, i, sc, j);
      }
    }
  }

  /** When a pass finds no class that is ready, no class is left. */
  lemma {:induction false} NothingStuck(filled: seq<bool>, src: Source, i: nat)
    requires SourceOk(src) && i < |src.w.table| <= |filled|
    requires forall k :: 0 <= k < |src.w.table| ==> filled[k] || !Ready(filled, src, k)
    ensures filled[i]
    decreases src.w.rank(src.w.table[i])
  {
    SuperInTable(src, i);
    var sup := src.s.superOf[src.w.table[i]];
    if sup.Some? {
      NothingStuck(filled, src, src.classId[sup.value]);
    }
    assert Ready(filled, src, i);
  }

  function Unfilled(filled: seq<bool>): nat {
    if filled == [] then 0 else Unfilled(filled[..|filled| - 1]) + if filled[|filled| - 1] then 0 else 1
  }

  lemma {:induction false} FillingOne(filled: seq<bool>, i: nat)
    requires i < |filled| && !filled[i]
    ensures Unfilled(filled[i := true]) < Unfilled(filled)
  {
    var n := |filled| - 1;
    if i == n {
      assert filled[i := true][..n] == filled[..n];
    } else {
      assert filled[i := true][..n] == filled[..n][i := true];
      FillingOne(filled[..n], i);
    }
  }

  /** Fills row i if the superclass's is filled. */
  method FillRow(cells: array<Option<Imp>>, filled: array<bool>, i: nat, bits: nat, cls: ClassRef,
                 sup: Option<ClassRef>, classId: map<ClassRef, nat>, hash: HashTable, ids: S.SelMap,
                 ghost names: seq<string>, ghost src: Source)
    returns (ok: bool)
    requires Filling(cells[..], filled[..], S.Pow2(bits), src) && i < |src.w.table| && !filled[i]
    requires cls == src.w.table[i] && cls in src.s.superOf && sup == src.s.superOf[cls] && classId == src.classId
    requires hash.Valid() && hash.contents == src.m
    requires ids.Valid() && ids.contents == src.ids && Numbered(src.ids, names) && |names| <= S.Pow2(bits) <= S.NO_ID
    requires cells as object != hash.table && cells as object != ids.slots && cells as object != filled
    requires filled as object != hash.table && filled as object != ids.slots
    modifies cells, filled
    ensures ok <==> Ready(old(filled[..]), src, i)
    ensures filled[..] == if ok then old(filled[..])[i := true] else old(filled[..])
    ensures Filling(cells[..], filled[..], S.Pow2(bits), src)
  {
    ghost var before, sc := cells[..], S.Pow2(bits);
    SuperInTable(src, i);
    assert RowState(before, filled[..], sc, src, i);
    ghost var below := RowOf(before, i, sc);
    if sup.Some? {
      var pid := classId[sup.value];
      if !filled[pid] {
        return false;
      }
      assert RowState(before, filled[..], sc, src, pid);
      CopyRow(cells, i, pid, S.Pow2(bits));
      below := RowOf(cells[..], i, sc);
    }
    FillOwn(cells, i, bits, cls, hash, ids, names);
    OwnOverwrites(RowOf(cells[..], i, sc), below, src.ids, hash.table[..hash.size], Home(hash.size), src.m, cls);
    RowInherits(RowOf(cells[..], i, sc), below, src, cls);
    RowFilled(before, cells[..], filled[..], sc, src, i);
    filled[i] := true;
    return true;
  }

  /** What a pass has done up to row n: filled some row, or found none of them ready. */
  ghost predicate PassSoFar(before: seq<bool>, filled: seq<bool>, progress: bool, src: Source, n: nat) {
    && SourceOk(src) && |src.w.table| <= |before|
    && (if progress then Unfilled(filled) < Unfilled(before) else filled == before)
    && (!progress ==> forall k :: 0 <= k < n && k < |src.w.table| ==> before[k] || !Ready(before, src, k))
  }

  lemma RowPassed(before: seq<bool>, filled: seq<bool>, progress: bool, src: Source, i: nat, ok: bool)
    requires PassSoFar(before, filled, progress, src, i) && i < |filled|
    requires if filled[i] then !ok else i < |src.w.table| <= |filled| && (ok <==> Ready(filled, src, i))
    ensures PassSoFar(before, if ok then filled[i := true] else filled, progress || ok, src, i + 1)
  {
    if ok {
      FillingOne(filled, i);
    }
  }

  /** One pass over the class table: fills every class that is ready when its turn comes. */
  method FillPass(cells: array<Option<Imp>>, filled: array<bool>, bits: nat, table: seq<ClassRef>,
                  superOf: map<ClassRef, Option<ClassRef>>, classId: map<ClassRef, nat>, hash: HashTable, ids: S.SelMap,
                  ghost names: seq<string>, ghost src: Source)
    returns (progress: bool)
    requires Filling(cells[..], filled[..], S.Pow2(bits), src)
    requires table == src.w.table && superOf == src.s.superOf && classId == src.classId
    requires hash.Valid() && hash.contents == src.m
    requires ids.Valid() && ids.contents == src.ids && Numbered(src.ids, names) && |names| <= S.Pow2(bits) <= S.NO_ID
    requires cells as object != hash.table && cells as object != ids.slots && cells as object != filled
    requires filled as object != hash.table && filled as object != ids.slots
    modifies cells, filled
    ensures Filling(cells[..], filled[..], S.Pow2(bits), src)
    ensures if progress then Unfilled(filled[..]) < Unfilled(old(filled[..])) else filled[..] == old(filled[..])
    ensures !progress ==> forall i :: 0 <= i < |table| ==> filled[i] || !Ready(filled[..], src, i)
  {
    progress := false;
    ghost var f0 := filled[..];
    for i := 0 to filled.Length
      invariant hash.Valid() && ids.Valid()
      invariant Filling(cells[..], filled[..], S.Pow2(bits), src)
      invariant PassSoFar(f0, filled[..], progress, src, i)
    {
      ghost var f := filled[..];
      var ok := false;
      if !filled[i] {
        SuperInTable(src, i);
        ok := FillRow(cells, filled, i, bits, table[i], superOf[table[i]], classId, hash, ids, names, src);
      }
      RowPassed(f0, f, progress, src, i, ok);
      progress := progress || ok;
    }
  }

  /** Passes until one makes no progress: then every row is filled, in whatever order the
      classes were registered. */
  method FillRows(cells: array<Option<Imp>>, filled: array<bool>, bits: nat, table: seq<ClassRef>,
                  superOf: map<ClassRef, Option<ClassRef>>, classId: map<ClassRef, nat>, hash: HashTable, ids: S.SelMap,
                  ghost names: seq<string>, ghost src: Source)
    requires Filling(cells[..], filled[..], S.Pow2(bits), src)
    requires table == src.w.table && superOf == src.s.superOf && classId == src.classId
    requires hash.Valid() && hash.contents == src.m
    requires ids.Valid() && ids.contents == src.ids && Numbered(src.ids, names) && |names| <= S.Pow2(bits) <= S.NO_ID
    requires cells as object != hash.table && cells as object != ids.slots && cells as object != filled
    requires filled as object != hash.table && filled as object != ids.slots
    modifies cells, filled
    ensures Filling(cells[..], filled[..], S.Pow2(bits), src)
    ensures forall i :: 0 <= i < |table| ==> filled[i]
  {
    var progress := true;
    while progress
      invariant hash.Valid() && ids.Valid()
      invariant Filling(cells[..], filled[..], S.Pow2(bits), src)
      invariant !progress ==> forall i :: 0 <= i < |table| ==> filled[i] || !Ready(filled[..], src, i)
      decreases Unfilled(filled[..]), progress
    {
      progress := FillPass(cells, filled, bits, table, superOf, classId, hash, ids, names, src);
    }
    forall i | 0 <= i < |table| ensures filled[i] {
      NothingStuck(filled[..], src, i);
    }
  }

  lemma IdsBelow(ids: map<string, nat>, names: seq<string>, sc: nat)
    requires Numbered(ids, names) && |names| <= sc
    ensures forall n :: n in ids ==> ids[n] < sc
  {
  }

  /** Marks the rows that no class uses as filled, and fills the others. */
  method FillTable(cells: array<Option<Imp>>, bits: nat, slots: nat, table: seq<ClassRef>,
                   superOf: map<ClassRef, Option<ClassRef>>, classId: map<ClassRef, nat>, hash: HashTable,
                   ids: S.SelMap, ghost names: seq<string>, ghost src: Source)
    requires Blank(cells[..]) && cells.Length == RowStart(slots, S.Pow2(bits))
    requires SourceOk(src) && table == src.w.table && superOf == src.s.superOf && classId == src.classId
    requires |table| <= slots
    requires hash.Valid() && hash.contents == src.m
    requires ids.Valid() && ids.contents == src.ids && Numbered(src.ids, names) && |names| <= S.Pow2(bits) <= S.NO_ID
    requires cells as object != hash.table && cells as object != ids.slots
    modifies cells
    ensures RowsRight(cells[..], S.Pow2(bits), src)
  {
    var filled := new bool[slots](i => i >= |table|);
    FillingStart(cells[..], filled[..], S.Pow2(bits), src);
    FillRows(cells, filled, bits, table, superOf, classId, hash, ids, names, src);
    FilledRight(cells[..], filled[..], S.Pow2(bits), src);
  }

  /** class_id = class_table index. */
  method AssignClassIds(table: seq<ClassRef>) returns (classId: map<ClassRef, nat>)
    requires Distinct(table)
    ensures ArePositions(classId, table)
  {
    classId := map[];
    for i := 0 to |table|
      invariant ArePositions(classId, table[..i])
    {
      classId := classId[table[i] := i];
    }
    assert table[..|table|] == table;
  }

  // ---------- the dispatcher ----------

  /** What the table answers: the walk's result, for a selector that has an id. */
  ghost function FlatAnswer(src: Source, c: ClassRef, n: string): Option<Imp>
    requires SourceOk(src) && c in src.s.superOf
  {
    if n in src.ids then Walk(src.w, src.s, src.m, c, n) else None
  }

  /** No selector of a registered method was refused an id. */
  ghost predicate AllNumbered(src: Source) {
    EachHasId(src.m, src.ids)
  }

  /** The flat table answers as the superclass walk for every class and selector if and
      only if no selector was refused an id. */
  lemma NumberedAgree(src: Source)
    requires SourceOk(src)
    ensures AllNumbered(src) <==>
            forall c, n :: c in src.s.superOf ==> FlatAnswer(src, c, n) == Walk(src.w, src.s, src.m, c, n)
  {
    if AllNumbered(src) {
      forall c, n | c in src.s.superOf ensures FlatAnswer(src, c, n) == Walk(src.w, src.s, src.m, c, n) {
        if n !in src.ids {
          NoIdNoMethod(src, c, n);
        }
      }
    } else {
      var k :| k in src.m && k.selector !in src.ids;
      assert k in AllKeys(src.w);
      assert FlatAnswer(src, k.cls, k.selector).None?;
      assert Get(src.m, k.cls, k.selector).Some?;
      assert Walk(src.w, src.s, src.m, k.cls, k.selector).Some?;
    }
  }

  lemma {:induction false} NoIdNoMethod(src: Source, c: ClassRef, n: string)
    requires SourceOk(src) && c in src.s.superOf && AllNumbered(src) && n !in src.ids
    ensures Walk(src.w, src.s, src.m, c, n).None?
    decreases src.w.rank(c)
  {
    assert Get(src.m, c, n).None?;
    if src.s.superOf[c].Some? {
      NoIdNoMethod(src, src.s.superOf[c].value, n);
    }
  }

  /** The class runtime when every category is loaded and every class resolved. */
  ghost predicate Settled(w: World, s: State, m: map<Key, Imp>) {
    && Inv(w, s, m) && RootsClosed(w) && s.loaded == |w.cats|
    && forall c {:trigger Complete(w, s.done, c)} :: c in w.info ==> Complete(w, s.done, c)
  }

  class Dispatcher {
    const bits: nat
    const slots: nat
    const ids: S.SelMap
    const cache: S.SelCache
    const cells: array<Option<Imp>>
    var classId: map<ClassRef, nat>
    ghost var src: Source

    ghost predicate Separate()
      reads this
    {
      && cache.ids == ids && cells as object != ids.slots && cells as object != cache.entries
      && cache.entries as object != ids.slots
    }

    /** As the zero-initialised memory of the program leaves it. */
    ghost predicate Empty()
      reads this, ids, ids.slots, cache, cache.entries, cells
    {
      && Separate() && ids.Valid() && cache.Valid() && ids.contents == map[] && ids.size == 2 * S.Pow2(bits)
      && cells.Length == RowStart(slots, S.Pow2(bits)) && Blank(cells[..])
    }

    ghost predicate Filled()
      reads this, ids, ids.slots, cache, cache.entries, cells
    {
      && Separate() && cache.Valid() && ids.contents == src.ids && classId == src.classId
      && TableRight(cells[..], src, bits, slots)
    }

    ghost predicate Answers()
      reads this, ids, ids.slots, cache, cache.entries, cells
    {
      Filled() && OnlyForWant(src, bits)
    }

    constructor (bits: nat, slots: nat, nameAt: bv32 -> string)
      ensures Empty() && this.bits == bits && this.slots == slots && cache.names == nameAt
      ensures fresh(ids) && fresh(ids.slots) && fresh(cache) && fresh(cache.entries) && fresh(cells)
    {
      this.bits, this.slots := bits, slots;
      var sel := new S.SelMap(2 * S.Pow2(bits));
      ids := sel;
      cache := new S.SelCache(nameAt, sel);
      cells := new Option<Imp>[RowStart(slots, S.Pow2(bits))](_ => None);
      classId := map[];
    }

    /** Phases 1 to 2.5: number the known selectors, resolve every class, and number the
        selectors found then. */
    method NumberAll(rt: Runtime, known: seq<string>) returns (ghost names: seq<string>)
      requires Empty() && S.Pow2(bits) <= S.NO_ID && Distinct(known) && |known| <= S.Pow2(bits)
      requires rt.Valid() && Pending(rt.Now()) == {} && rt.categoriesLoaded && RootsClosed(rt.Around())
      requires rt.hash.table as object != ids.slots && rt.hash.table as object != cells
      requires rt.hash.table as object != cache.entries
      modifies ids`contents, ids.slots
      modifies rt`superOf, rt`resolved, rt`sizes, rt`offsets, rt`done, rt.hash`contents, rt.hash.table
      ensures Separate() && cache.Valid() && Numbered(ids.contents, names) && |names| <= S.Pow2(bits)
      ensures rt.hash.Valid() && Settled(rt.Around(), rt.Now(), rt.hash.contents)
      ensures EachHasId(rt.hash.contents, ids.contents) <==>
              |NamesOf(known) + SelectorsIn(rt.hash.contents)| <= S.Pow2(bits)
    {
      assert forall i :: 0 <= i < S.CACHE_SIZE ==> cache.entries[i].addr == 0;
      NumberKnown(ids, known);
      rt.ResolveAll();
      names := NumberRest(ids, rt.hash, bits, known);
    }

    /** Phases 3 and 4: number the classes and fill their rows. */
    method FillFrom(table: seq<ClassRef>, superOf: map<ClassRef, Option<ClassRef>>, hash: HashTable,
                    ghost names: seq<string>, ghost known: seq<string>, ghost w: World, ghost s: State)
      requires Separate() && cache.Valid() && Blank(cells[..]) && cells.Length == RowStart(slots, S.Pow2(bits))
      requires Numbered(ids.contents, names) && |names| <= S.Pow2(bits) <= S.NO_ID
      requires hash.Valid() && Settled(w, s, hash.contents)
      requires table == w.table && superOf == s.superOf && Distinct(table) && |table| <= slots
      requires hash.table as object != ids.slots && hash.table as object != cells
      modifies this`classId, this`src, cells
      ensures Filled() && src == Source(w, s, hash.contents, known, ids.contents, classId)
    {
      classId := AssignClassIds(table);
      src := Source(w, s, hash.contents, known, ids.contents, classId);
      FillTable(cells, bits, slots, table, superOf, classId, hash, ids, names, src);
      IdsBelow(src.ids, names, S.Pow2(bits));
    }

    /** Fills the table once the categories are loaded: from then on it answers what the
        metadata define, if and only if there are ids for all their selectors. */
    method Fill(rt: Runtime, known: seq<string>)
      requires Empty() && S.Pow2(bits) <= S.NO_ID && Distinct(known) && |known| <= S.Pow2(bits)
      requires rt.Valid() && Pending(rt.Now()) == {} && rt.categoriesLoaded && RootsClosed(rt.Around())
      requires Distinct(rt.classTable) && |rt.classTable| <= slots
      requires rt.hash.table as object != ids.slots && rt.hash.table as object != cells
      requires rt.hash.table as object != cache.entries
      modifies this`classId, this`src, cells, ids`contents, ids.slots
      modifies rt`superOf, rt`resolved, rt`sizes, rt`offsets, rt`done, rt.hash`contents, rt.hash.table
      ensures Answers() && src.w == rt.Around() && src.known == known
      ensures IdsSuffice(rt.Around(), known, bits) <==> AnswersDefined(src)
    {
      ghost var names := NumberAll(rt, known);
      FillFrom(rt.classTable, rt.superOf, rt.hash, names, known, rt.Around(), rt.Now());
      WantExactly(src, bits);
      FlatIsDefined(cells[..], src, bits, slots);
    }

    /** The cell of a class and a selector, given by the address of its name. */
    method CellOf(cls: ClassRef, selector: bv32) returns (imp: Option<Imp>)
      requires Filled() && cls in src.w.info
      modifies cache.entries
      ensures Filled()
      ensures imp == if selector == 0 then None else FlatAnswer(src, cls, cache.names(selector))
    {
      var id := cache.ToIdCached(selector);
      if id == S.NO_ID {
        return None;
      }
      CellRight(cells[..], src, bits, slots, cls, cache.names(selector));
      return cells[Or(RowStart(classId[cls], S.Pow2(bits)), id)];
    }

    /** Implementation of a selector for a class. */
    method Lookup(cls: ClassRef, selector: bv32) returns (imp: Option<Imp>)
      requires Answers() && cls in src.w.info
      modifies cache.entries
      ensures Answers()
      ensures imp == if selector == 0 then None else FlatAnswer(src, cls, cache.names(selector))
      ensures selector != 0 && IdsSuffice(src.w, src.known, bits) ==> imp == Defined(src.w, cls, cache.names(selector))
    {
      imp := CellOf(cls, selector);
      AnswerDefined(cells[..], src, bits, slots, cls, cache.names(selector));
    }
  }

  /** Every row answers for its class, and every class is completely resolved. */
  ghost predicate TableRight(cells: seq<Option<Imp>>, src: Source, bits: nat, slots: nat) {
    && SourceOk(src) && Settled(src.w, src.s, src.m)
    && S.Pow2(bits) <= S.NO_ID && (forall n :: n in src.ids ==> src.ids[n] < S.Pow2(bits))
    && |src.w.table| <= slots && |cells| == RowStart(slots, S.Pow2(bits))
    && RowsRight(cells, S.Pow2(bits), src)
  }

  ghost predicate RowsRight(cells: seq<Option<Imp>>, sc: nat, src: Source)
    requires SourceOk(src)
  {
    forall i {:trigger src.w.table[i]} :: 0 <= i < |src.w.table| ==> RowAnswers(cells, sc, src, i)
  }

  ghost predicate RowAnswers(cells: seq<Option<Imp>>, sc: nat, src: Source, i: nat)
    requires SourceOk(src) && i < |src.w.table|
  {
    && RowStart(i, sc) + sc <= |cells| && src.w.table[i] in src.s.superOf
    && RowRight(RowOf(cells, i, sc), src, src.w.table[i])
  }

  /** A selector was refused an id only for want of ids. */
  ghost predicate OnlyForWant(src: Source, bits: nat) {
    AllNumbered(src) <==> IdsSuffice(src.w, src.known, bits)
  }

  lemma WantExactly(src: Source, bits: nat)
    requires SourceOk(src) && Settled(src.w, src.s, src.m)
    requires EachHasId(src.m, src.ids) <==> |NamesOf(src.known) + SelectorsIn(src.m)| <= S.Pow2(bits)
    ensures OnlyForWant(src, bits)
  {
    KeysComplete(src.w, src.s, src.m);
    assert SelectorsIn(src.m) == set k | k in AllKeys(src.w) :: k.selector;
  }

  /** A filled table answers as the superclass walk for every class and selector if and only
      if the selectors known at build time and those that have a method are together not
      more than the ids. */
  lemma FlatRefinesWalk(cells: seq<Option<Imp>>, src: Source, bits: nat, slots: nat)
    requires TableRight(cells, src, bits, slots) && OnlyForWant(src, bits)
    ensures IdsSuffice(src.w, src.known, bits) <==>
            forall c, n :: c in src.s.superOf ==> FlatAnswer(src, c, n) == Walk(src.w, src.s, src.m, c, n)
  {
    NumberedAgree(src);
  }

  /** The table answers what the metadata define, for every class and selector. */
  ghost predicate AnswersDefined(src: Source)
    requires SourceOk(src)
  {
    forall c, n :: c in src.w.info ==> FlatAnswer(src, c, n) == Defined(src.w, c, n)
  }

  /** It answers what the metadata define under the same condition. */
  lemma FlatIsDefined(cells: seq<Option<Imp>>, src: Source, bits: nat, slots: nat)
    requires TableRight(cells, src, bits, slots) && OnlyForWant(src, bits)
    ensures IdsSuffice(src.w, src.known, bits) <==> AnswersDefined(src)
  {
    NumberedAgree(src);
    forall c, n | c in src.w.info ensures Walk(src.w, src.s, src.m, c, n) == Defined(src.w, c, n) {
      SettledWalk(src, c, n);
    }
  }

  lemma AnswerDefined(cells: seq<Option<Imp>>, src: Source, bits: nat, slots: nat, c: ClassRef, n: string)
    requires TableRight(cells, src, bits, slots) && OnlyForWant(src, bits) && c in src.w.info
    ensures IdsSuffice(src.w, src.known, bits) ==> FlatAnswer(src, c, n) == Defined(src.w, c, n)
  {
    FlatIsDefined(cells, src, bits, slots);
  }

  lemma SettledWalk(src: Source, c: ClassRef, n: string)
    requires SourceOk(src) && Settled(src.w, src.s, src.m) && c in src.w.info
    ensures Walk(src.w, src.s, src.m, c, n) == Defined(src.w, c, n)
  {
    assert Complete(src.w, src.s.done, c);
    WalkIsDefined(src.w, src.s, src.m, c, n);
  }

  lemma FillingStart(cells: seq<Option<Imp>>, filled: seq<bool>, sc: nat, src: Source)
    requires SourceOk(src) && Blank(cells) && |cells| == RowStart(|filled|, sc) && |src.w.table| <= |filled|
    requires forall i :: 0 <= i < |filled| ==> (filled[i] <==> i >= |src.w.table|)
    ensures Filling(cells, filled, sc, src)
  {
    forall i | 0 <= i < |src.w.table| ensures RowState(cells, filled, sc, src, i) {
      RowFits(i, |filled|, sc);
      SuperInTable(src, i);
    }
  }

  lemma FilledRight(cells: seq<Option<Imp>>, filled: seq<bool>, sc: nat, src: Source)
    requires Filling(cells, filled, sc, src) && forall i :: 0 <= i < |src.w.table| ==> filled[i]
    ensures RowsRight(cells, sc, src)
  {
    forall i | 0 <= i < |src.w.table| ensures RowAnswers(cells, sc, src, i) {
      assert RowState(cells, filled, sc, src, i);
    }
  }

  lemma RowOfClass(cells: seq<Option<Imp>>, src: Source, bits: nat, slots: nat, c: ClassRef) returns (i: nat)
    requires TableRight(cells, src, bits, slots) && c in src.w.info
    ensures c in src.classId && i == src.classId[c] < |src.w.table| && src.w.table[i] == c
    ensures RowAnswers(cells, S.Pow2(bits), src, i)
  {
    InTable(src, c);
    i := src.classId[c];
  }

  lemma CellRight(cells: seq<Option<Imp>>, src: Source, bits: nat, slots: nat, c: ClassRef, n: string)
    requires TableRight(cells, src, bits, slots) && c in src.w.info && n in src.ids
    ensures c in src.classId && c in src.s.superOf
    ensures var k := Or(RowStart(src.classId[c], S.Pow2(bits)), src.ids[n]);
      k < |cells| && cells[k] == FlatAnswer(src, c, n)
  {
    var i := RowOfClass(cells, src, bits, slots, c);
    OrCell(cells, bits, i, src.ids[n]);
  }

  lemma OrCell<T>(cells: seq<T>, bits: nat, i: nat, id: nat)
    requires RowStart(i, S.Pow2(bits)) + S.Pow2(bits) <= |cells| && id < S.Pow2(bits)
    ensures var k := Or(RowStart(i, S.Pow2(bits)), id);
      k < |cells| && cells[k] == RowOf(cells, i, S.Pow2(bits))[id]
  {
    OrDisjoint(i, id, bits);
  }
}
