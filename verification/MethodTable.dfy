/**
 The global method hash table of the legacy runtime: class and selector name to
 implementation.  The table has one slot more than it uses.
 */
module MethodTable {
  import opened Wrappers
  import opened Probing

  /** A class structure: its address, and the two fields that never change. */
  datatype ClassRef = ClassRef(addr: nat, name: string, meta: bool)

  datatype Key = Key(cls: ClassRef, selector: string)

  /** An implementation, by its address. */
  type Imp = nat

  const WORD := 0x1_0000_0000

  /** Mixes a string into a 32-bit hash value. */
  function Mix(h: nat, s: string): nat {
    if s == [] then h else (Mix(h, s[..|s| - 1]) * 31 + s[|s| - 1] as int) % WORD
  }

  function HashOf(k: Key): nat {
    var h := Mix(0, k.cls.name);
    Mix(if k.cls.meta then (h + 0x10000) % WORD else h, k.selector)
  }

  function Home(size: nat): Key -> nat
    requires size > 0
  {
    (k: Key) => HashOf(k) % size
  }

  /** What registering does to the entries of a table with this many slots. */
  function Registered(m: map<Key, Imp>, key: Key, imp: Imp, size: nat): map<Key, Imp> {
    if key in m || |m| < size then m[key := imp] else m
  }

  method MixString(start: nat, s: string) returns (hash: nat)
    ensures hash == Mix(start, s)
  {
    hash := start;
    for i := 0 to |s|
      invariant hash == Mix(start, s[..i])
    {
      assert s[..i + 1][..i] == s[..i];
      hash := (hash * 31 + s[i] as int) % WORD;
    }
    assert s[..|s|] == s;
  }

  class HashTable {
    const size: nat
    const table: array<Slot<Key, Imp>>
    ghost var contents: map<Key, Imp>

    ghost predicate Valid()
      reads this, table
    {
      0 < size && table.Length == size + 1 && Holds(table[..size], Home(size), contents)
    }

    constructor (size: nat)
      requires 0 < size
      ensures Valid() && this.size == size && contents == map[] && fresh(table)
    {
      this.size := size;
      table := new Slot<Key, Imp>[size + 1](_ => Empty);
      contents := map[];
    }

    method Compute(cls: ClassRef, selector: string) returns (hash: nat)
      requires size > 0
      ensures hash == Home(size)(Key(cls, selector))
    {
      hash := MixString(0, cls.name);
      if cls.meta {
        hash := (hash + 0x10000) % WORD;
      }
      hash := MixString(hash, selector);
      hash := hash % size;
    }

    /** Replaces the entry of the key, or takes the first empty slot of its probe
        sequence; refuses a new key when there is none. */
    method Register(cls: ClassRef, selector: string, imp: Imp) returns (ok: bool)
      requires Valid()
      modifies this`contents, table
      ensures Valid()
      ensures contents == Registered(old(contents), Key(cls, selector), imp, size)
      ensures ok <==> Key(cls, selector) in contents
    {
      var key := Key(cls, selector);
      var hash := Compute(cls, selector);
      var index := hash;
      ghost var t, home, j := table[..size], Home(size), 0;
      while table[hash].Full?
        invariant Valid() && contents == old(contents) && table[..size] == t
        invariant index == home(key) && j < size && hash == At(index, j, size)
        invariant Passes(t, index, key, j)
        decreases size - j
      {
        if table[hash].key == key {
          Found(t, home, contents, key, hash);
          Replaced(t, home, contents, key, imp, hash);
          table[hash] := Full(key, imp);
          contents := contents[key := imp];
          assert table[..size] == t[hash := Full(key, imp)];
          return true;
        }
        assert PassedAt(t, index, key, j);
        AtNext(index, j, size);
        hash := (hash + 1) % size;
        j := j + 1;
        if hash == index {
          Absent(t, home, contents, key, size);
          AllTaken(t, index, key);
          FullIffNoRoom(t, home, contents);
          return false;
        }
      }
      Inserted(t, home, contents, key, imp, j);
      FullIffNoRoom(t, home, contents);
      assert !AllFull(t, size) by {
        assert t[hash].Empty?;
      }
      table[hash] := Full(key, imp);
      contents := contents[key := imp];
      assert table[..size] == t[hash := Full(key, imp)];
      return true;
    }

    /** The implementation registered for this class and selector, if any. */
    method Lookup(cls: ClassRef, selector: string) returns (imp: Option<Imp>)
      requires Valid()
      ensures imp == if Key(cls, selector) in contents then Some(contents[Key(cls, selector)]) else None
    {
      var key := Key(cls, selector);
      var hash := Compute(cls, selector);
      var index := hash;
      ghost var t, home, j := table[..size], Home(size), 0;
      while table[hash].Full?
        invariant index == home(key) && j < size && hash == At(index, j, size)
        invariant Passes(t, index, key, j)
        decreases size - j
      {
        if table[hash].key == key {
          Found(t, home, contents, key, hash);
          return Some(table[hash].value);
        }
        assert PassedAt(t, index, key, j);
        AtNext(index, j, size);
        hash := (hash + 1) % size;
        j := j + 1;
        if hash == index {
          Absent(t, home, contents, key, size);
          return None;
        }
      }
      Absent(t, home, contents, key, j);
      return None;
    }
  }

  // ---------- whole histories ----------

  datatype Registration = Registration(key: Key, imp: Imp)

  /** The entries after a sequence of registrations, accepted or refused. */
  function After(ops: seq<Registration>, size: nat): map<Key, Imp> {
    if ops == [] then map[]
    else
      var n := |ops| - 1;
      Registered(After(ops[..n], size), ops[n].key, ops[n].imp, size)
  }

  /** Registration i found its key in the table, or room for it. */
  predicate Accepted(ops: seq<Registration>, size: nat, i: nat)
    requires i < |ops|
  {
    ops[i].key in After(ops[..i], size) || |After(ops[..i], size)| < size
  }

  /** Registration i is the last successful one of this key. */
  ghost predicate LastOf(ops: seq<Registration>, size: nat, key: Key, i: nat) {
    && i < |ops| && ops[i].key == key && Accepted(ops, size, i)
    && forall j :: i < j < |ops| && ops[j].key == key ==> !Accepted(ops, size, j)
  }

  lemma LastOfFront(ops: seq<Registration>, size: nat, key: Key, i: nat)
    requires ops != [] && !(ops[|ops| - 1].key == key && Accepted(ops, size, |ops| - 1))
    ensures LastOf(ops, size, key, i) <==> LastOf(ops[..|ops| - 1], size, key, i)
  {
    var n := |ops| - 1;
    forall j | 0 <= j < n ensures Accepted(ops[..n], size, j) <==> Accepted(ops, size, j) {
      assert ops[..n][..j] == ops[..j];
    }
  }

  /** A lookup finds an implementation exactly when some registration of the key was
      successful, and then the last successful one's. */
  lemma {:induction false} LastRegistrationWins(ops: seq<Registration>, size: nat, key: Key)
    ensures key in After(ops, size) <==> exists i: nat :: LastOf(ops, size, key, i)
    ensures forall i: nat :: LastOf(ops, size, key, i) ==> After(ops, size)[key] == ops[i].imp
  {
    if ops != [] {
      var n := |ops| - 1;
      var before := ops[..n];
      LastRegistrationWins(before, size, key);
      if ops[n].key == key && Accepted(ops, size, n) {
        assert LastOf(ops, size, key, n);
      } else {
        forall i: nat ensures LastOf(ops, size, key, i) <==> LastOf(before, size, key, i) {
          LastOfFront(ops, size, key, i);
        }
      }
    }
  }

  /** Running the registrations on the real table. */
  method RegisterAll(ops: seq<Registration>, size: nat) returns (h: HashTable)
    requires 0 < size
    ensures fresh(h) && fresh(h.table) && h.Valid() && h.size == size && h.contents == After(ops, size)
  {
    h := new HashTable(size);
    for n := 0 to |ops|
      invariant fresh(h) && fresh(h.table) && h.Valid() && h.size == size && h.contents == After(ops[..n], size)
    {
      assert ops[..n + 1][..n] == ops[..n];
      var _ := h.Register(ops[n].key.cls, ops[n].key.selector, ops[n].imp);
    }
    assert ops[..|ops|] == ops;
  }
}
