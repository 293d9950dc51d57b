/**
 Selector names to small numbers: the open-addressing map filled once at start-up, the
 direct-mapped cache in front of it, and the table sizes computed at build time.
 */
module SelectorMap {
  import opened Wrappers
  import opened Probing

  /** The id that means "no such selector". */
  const NO_ID := 65535

  /** The string hash of the map, in 32-bit arithmetic. */
  function Djb2(s: string): bv32 {
    if s == [] then 5381
    else
      var n := |s| - 1;
      var h := Djb2(s[..n]);
      ((h << 5) + h) ^ ((s[n] as int % 256) as bv32)
  }

  function Home(size: nat): string -> nat
    requires size > 0
  {
    (name: string) => Djb2(name) as nat % size
  }

  method HashName(name: string) returns (h: bv32)
    ensures h == Djb2(name)
  {
    h := 5381;
    for i := 0 to |name|
      invariant h == Djb2(name[..i])
    {
      assert name[..i + 1][..i] == name[..i];
      h := ((h << 5) + h) ^ ((name[i] as int % 256) as bv32);
    }
    assert name[..|name|] == name;
  }

  method HomeSlot(name: string, size: nat) returns (slot: nat)
    requires size > 0
    ensures slot == Home(size)(name)
  {
    var h := HashName(name);
    slot := h as nat % size;
  }

  class SelMap {
    const size: nat
    const slots: array<Slot<string, nat>>
    ghost var contents: map<string, nat>

    ghost predicate Valid()
      reads this, slots
    {
      0 < size && slots.Length == size && Holds(slots[..], Home(size), contents)
    }

    constructor (size: nat)
      requires 0 < size
      ensures Valid() && this.size == size && contents == map[] && fresh(slots)
    {
      this.size := size;
      slots := new Slot<string, nat>[size](_ => Empty);
      contents := map[];
    }

    /** Adds a name that is not in the map yet; a full map stays as it is. */
    method Insert(name: string, id: nat)
      requires Valid() && name !in contents
      modifies this`contents, slots
      ensures Valid()
      ensures contents == if |old(contents)| < size then old(contents)[name := id] else old(contents)
    {
      var h := HomeSlot(name, size);
      ghost var t := slots[..];
      var i := 0;
      while i < size
        invariant i <= size && Valid() && contents == old(contents) && slots[..] == t
        invariant Passes(t, h, name, i)
      {
        var idx := At(h, i, size);
        if slots[idx].Empty? {
          Inserted(t, Home(size), contents, name, id, i);
          FullIffNoRoom(t, Home(size), contents);
          assert !AllFull(t, size) by {
            assert t[idx].Empty?;
          }
          slots[idx] := Full(name, id);
          contents := contents[name := id];
          assert slots[..] == t[idx := Full(name, id)];
          return;
        }
        assert t[idx].key in contents;
        assert PassedAt(t, h, name, i);
        i := i + 1;
      }
      AllTaken(t, h, name);
      FullIffNoRoom(t, Home(size), contents);
    }

    method ToId(name: string) returns (id: nat)
      requires Valid()
      ensures id == if name in contents then contents[name] else NO_ID
    {
      var h := HomeSlot(name, size);
      ghost var t := slots[..];
      var i := 0;
      while i < size
        invariant i <= size && Passes(t, h, name, i)
      {
        var idx := At(h, i, size);
        if slots[idx].Empty? {
          Absent(t, Home(size), contents, name, i);
          return NO_ID;
        }
        if slots[idx].key == name {
          Found(t, Home(size), contents, name, idx);
          return slots[idx].value;
        }
        assert PassedAt(t, h, name, i);
        i := i + 1;
      }
      Absent(t, Home(size), contents, name, size);
      return NO_ID;
    }
  }

  // ---------- the cache ----------

  const CACHE_SIZE := 64

  function CacheSlot(addr: bv32): (i: nat)
    ensures i < CACHE_SIZE
  {
    (((addr >> 2) ^ (addr >> 11)) & 63) as nat
  }

  datatype CacheEntry = CacheEntry(addr: bv32, id: nat)

  /** The cache is keyed by the address of a selector's name; address 0 is NULL.  What an
      address points to never changes. */
  class SelCache {
    const names: bv32 -> string
    const ids: SelMap
    const entries: array<CacheEntry>

    ghost predicate Valid()
      reads this, ids, ids.slots, entries
    {
      && ids.Valid() && entries.Length == CACHE_SIZE && entries as object != ids.slots
      && forall i :: 0 <= i < CACHE_SIZE && entries[i].addr != 0 ==> Agrees(entries[i], names, ids.contents)
    }

    constructor (names: bv32 -> string, ids: SelMap)
      requires ids.Valid()
      ensures Valid() && this.names == names && this.ids == ids && fresh(entries)
    {
      this.names := names;
      this.ids := ids;
      entries := new CacheEntry[CACHE_SIZE](_ => CacheEntry(0, 0));
    }

    /** The cached translation is the uncached one, before and after any other lookups. */
    method ToIdCached(addr: bv32) returns (id: nat)
      requires Valid()
      modifies entries
      ensures Valid()
      ensures id == Translate(addr, names, ids.contents)
    {
      if addr == 0 {
        return NO_ID;
      }
      var i := CacheSlot(addr);
      if entries[i].addr == addr {
        assert Agrees(entries[i], names, ids.contents);
        return entries[i].id;
      }
      id := ids.ToId(names(addr));
      if id != NO_ID {
        entries[i] := CacheEntry(addr, id);
      }
    }
  }

  function Translate(addr: bv32, names: bv32 -> string, ids: map<string, nat>): nat {
    if addr != 0 && names(addr) in ids then ids[names(addr)] else NO_ID
  }

  predicate Agrees(e: CacheEntry, names: bv32 -> string, ids: map<string, nat>) {
    names(e.addr) in ids && ids[names(e.addr)] == e.id
  }

  // ---------- sizes computed at build time ----------

  function Pow2(n: nat): (p: nat)
    ensures p > 0
  {
    if n == 0 then 1 else 2 * Pow2(n - 1)
  }

  function BitLength(x: nat): nat {
    if x == 0 then 0 else 1 + BitLength(x / 2)
  }

  function SelBits(selectors: nat): nat {
    if selectors > 0 && BitLength(selectors - 1) > 1 then BitLength(selectors - 1) else 1
  }

  function SelCount(selectors: nat): nat {
    Pow2(SelBits(selectors))
  }

  lemma {:induction false} BitLengthFits(x: nat)
    ensures x < Pow2(BitLength(x))
  {
    if x > 0 {
      BitLengthFits(x / 2);
    }
  }

  /** There is an id for every selector found at build time, so that the map, which has
      twice as many slots, has room to spare. */
  lemma SizesFit(selectors: nat)
    ensures selectors <= SelCount(selectors) < 2 * SelCount(selectors)
  {
    if selectors > 0 {
      BitLengthFits(selectors - 1);
    }
  }

  lemma {:induction false} BitLengthOfPower(b: nat)
    ensures BitLength(Pow2(b) - 1) == b
  {
    if b > 0 {
      BitLengthOfPower(b - 1);
      assert (Pow2(b) - 1) / 2 == Pow2(b - 1) - 1;
    }
  }

  /** The ids are exactly as many as the selectors if those are a power of two. */
  lemma NoneToSpare(selectors: nat, b: nat)
    requires b > 0 && selectors == Pow2(b)
    ensures SelCount(selectors) == selectors
  {
    BitLengthOfPower(b);
  }
}
