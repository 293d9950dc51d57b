/**
 Open addressing with linear probing, as both tables of the legacy runtime use it.
 Entries are never removed, so a key is found by following its probe sequence up to the
 first empty slot.
 */
module Probing {
  import opened Wrappers

  datatype Slot<+K, +V> = Empty | Full(key: K, value: V)

  /** The slot reached from `start` after j steps around a table of n slots. */
  function At(start: nat, j: nat, n: nat): (i: nat)
    requires start < n && j <= n
    ensures i < n
  {
    if start + j < n then start + j else start + j - n
  }

  /** The steps from `start` to slot i. */
  function Distance(start: nat, i: nat, n: nat): (j: nat)
    requires start < n && i < n
    ensures j < n && At(start, j, n) == i
  {
    if start <= i then i - start else i + n - start
  }

  lemma AtNext(start: nat, j: nat, n: nat)
    requires start < n && j < n
    ensures (At(start, j, n) + 1) % n == At(start, j + 1, n)
    ensures At(start, j + 1, n) == start <==> j + 1 == n
  {
    if At(start, j, n) + 1 == n {
      assert n % n == 0;
    } else {
      SmallMod(At(start, j, n) + 1, n);
    }
  }

  lemma SmallMod(x: nat, n: nat)
    requires x < n
    ensures x % n == x
  {
  }

  /** The first j slots of the probe sequence of key are taken by other keys. */
  ghost predicate Passes<K, V>(t: seq<Slot<K, V>>, start: nat, key: K, j: nat)
    requires start < |t| && j <= |t|
  {
    forall m :: 0 <= m < j ==> PassedAt(t, start, key, m)
  }

  ghost predicate PassedAt<K, V>(t: seq<Slot<K, V>>, start: nat, key: K, m: nat)
    requires start < |t| && m < |t|
  {
    t[At(start, m, |t|)].Full? && t[At(start, m, |t|)].key != key
  }

  /** Every entry can be reached by probing for its key from the key's home slot. */
  ghost predicate Chained<K(!new), V(!new)>(t: seq<Slot<K, V>>, home: K -> nat) {
    && (forall k :: home(k) < |t|)
    && forall i :: 0 <= i < |t| && t[i].Full? ==>
         Passes(t, home(t[i].key), t[i].key, Distance(home(t[i].key), i, |t|))
  }

  /** The table and a map hold the same entries. */
  ghost predicate Holds<K(!new), V(!new)>(t: seq<Slot<K, V>>, home: K -> nat, m: map<K, V>) {
    && Chained(t, home)
    && (forall i :: 0 <= i < |t| && t[i].Full? ==> t[i].key in m && m[t[i].key] == t[i].value)
    && (forall k :: k in m ==> Occurs(t, k, m[k]))
  }

  ghost predicate Occurs<K, V>(t: seq<Slot<K, V>>, k: K, v: V) {
    exists i :: 0 <= i < |t| && t[i] == Full(k, v)
  }

  // ---------- what a probe may conclude ----------

  /** Probing meets an entry with the key: it is the entry of the map. */
  lemma Found<K(!new), V(!new)>(t: seq<Slot<K, V>>, home: K -> nat, m: map<K, V>, key: K, i: nat)
    requires Holds(t, home, m) && i < |t| && t[i].Full? && t[i].key == key
    ensures key in m && m[key] == t[i].value
  {
  }

  lemma NoGapBefore<K(!new), V(!new)>(t: seq<Slot<K, V>>, home: K -> nat, i: nat, j: nat)
    requires Chained(t, home) && i < |t| && t[i].Full? && j < Distance(home(t[i].key), i, |t|)
    ensures t[At(home(t[i].key), j, |t|)].Full?
  {
    assert PassedAt(t, home(t[i].key), t[i].key, j);
  }

  lemma OtherKey<K, V>(t: seq<Slot<K, V>>, start: nat, key: K, j: nat, d: nat)
    requires start < |t| && d < j <= |t| && Passes(t, start, key, j)
    ensures t[At(start, d, |t|)].Full? && t[At(start, d, |t|)].key != key
  {
    assert PassedAt(t, start, key, d);
  }

  /** Probing meets an empty slot, or comes back to its start: the key is not there. */
  lemma Absent<K(!new), V(!new)>(t: seq<Slot<K, V>>, home: K -> nat, m: map<K, V>, key: K, j: nat)
    requires Holds(t, home, m) && j <= |t| && Passes(t, home(key), key, j)
    requires j == |t| || t[At(home(key), j, |t|)].Empty?
    ensures key !in m
  {
    if key in m {
      assert Occurs(t, key, m[key]);
      var i :| 0 <= i < |t| && t[i] == Full(key, m[key]);
      var d := Distance(home(key), i, |t|);
      assert Passes(t, home(key), key, d);
      if j < d {
        NoGapBefore(t, home, i, j);
      }
      if d < j {
        OtherKey(t, home(key), key, j, d);
      }
      assert false;
    }
  }

  /** A probe that goes all the way round has seen every slot. */
  lemma AllTaken<K, V>(t: seq<Slot<K, V>>, start: nat, key: K)
    requires start < |t| && Passes(t, start, key, |t|)
    ensures AllFull(t, |t|)
  {
    forall i | 0 <= i < |t| ensures t[i].Full? {
      assert PassedAt(t, start, key, Distance(start, i, |t|));
    }
  }

  /** Writing a new key into the first empty slot of its probe sequence. */
  lemma Inserted<K(!new), V(!new)>(t: seq<Slot<K, V>>, home: K -> nat, m: map<K, V>, key: K, value: V, j: nat)
    requires Holds(t, home, m) && j < |t| && Passes(t, home(key), key, j)
    requires t[At(home(key), j, |t|)].Empty?
    ensures Holds(t[At(home(key), j, |t|) := Full(key, value)], home, m[key := value]) && key !in m
  {
    var i := At(home(key), j, |t|);
    var t' := t[i := Full(key, value)];
    Absent(t, home, m, key, j);
    forall x | 0 <= x < |t'| && t'[x].Full?
      ensures Passes(t', home(t'[x].key), t'[x].key, Distance(home(t'[x].key), x, |t'|))
    {
      InsertedChain(t, home, m, key, value, j, x);
    }
    var m' := m[key := value];
    forall k | k in m' ensures Occurs(t', k, m'[k]) {
      if k == key {
        assert t'[i] == Full(key, value);
      } else {
        assert Occurs(t, k, m[k]);
        var x :| 0 <= x < |t| && t[x] == Full(k, m[k]);
        assert t'[x] == t[x];
      }
    }
  }

  lemma InsertedChain<K(!new), V(!new)>(t: seq<Slot<K, V>>, home: K -> nat, m: map<K, V>, key: K, value: V,
                                        j: nat, x: nat)
    requires Holds(t, home, m) && j < |t| && Passes(t, home(key), key, j) && key !in m
    requires t[At(home(key), j, |t|)].Empty?
    requires x < |t| && (t[x].Full? || x == At(home(key), j, |t|))
    ensures var t' := t[At(home(key), j, |t|) := Full(key, value)];
      Passes(t', home(t'[x].key), t'[x].key, Distance(home(t'[x].key), x, |t'|))
  {
    var i := At(home(key), j, |t|);
    var t' := t[i := Full(key, value)];
    var k := t'[x].key;
    var d := Distance(home(k), x, |t'|);
    forall s | 0 <= s < d ensures PassedAt(t', home(k), k, s) {
      assert PassedAt(t, home(k), k, s);
    }
  }

  /** Replacing the value of a key that is there. */
  lemma Replaced<K(!new), V(!new)>(t: seq<Slot<K, V>>, home: K -> nat, m: map<K, V>, key: K, value: V, i: nat)
    requires Holds(t, home, m) && i < |t| && t[i].Full? && t[i].key == key
    ensures Holds(t[i := Full(key, value)], home, m[key := value])
  {
    var t' := t[i := Full(key, value)];
    forall x | 0 <= x < |t'| && t'[x].Full?
      ensures Passes(t', home(t'[x].key), t'[x].key, Distance(home(t'[x].key), x, |t'|))
    {
      var k, d := t[x].key, Distance(home(t[x].key), x, |t|);
      forall s | 0 <= s < d ensures PassedAt(t', home(k), k, s) {
        assert PassedAt(t, home(k), k, s);
      }
    }
    forall x | 0 <= x < |t'| && t'[x].Full? ensures t'[x].key == key ==> x == i {
      if t[x].key == key {
        SameKeySameSlot(t, home, x, i);
      }
    }
    var m' := m[key := value];
    forall k | k in m' ensures Occurs(t', k, m'[k]) {
      if k == key {
        assert t'[i] == Full(key, value);
      } else {
        assert Occurs(t, k, m[k]);
        var x :| 0 <= x < |t| && t[x] == Full(k, m[k]);
        assert t'[x] == t[x];
      }
    }
  }

  lemma SameKeySameSlot<K(!new), V(!new)>(t: seq<Slot<K, V>>, home: K -> nat, x: nat, i: nat)
    requires Chained(t, home) && x < |t| && i < |t| && t[x].Full? && t[i].Full? && t[x].key == t[i].key
    ensures x == i
  {
    var k := t[x].key;
    var dx, di := Distance(home(k), x, |t|), Distance(home(k), i, |t|);
    assert dx < di ==> PassedAt(t, home(k), k, dx);
    assert di < dx ==> PassedAt(t, home(k), k, di);
  }

  // ---------- when the table is full ----------

  ghost function KeysUpTo<K, V>(t: seq<Slot<K, V>>, n: nat): set<K>
    requires n <= |t|
  {
    if n == 0 then {}
    else KeysUpTo(t, n - 1) + if t[n - 1].Full? then {t[n - 1].key} else {}
  }

  lemma {:induction false} KeysUpToMembers<K, V>(t: seq<Slot<K, V>>, n: nat, k: K)
    requires n <= |t|
    ensures k in KeysUpTo(t, n) <==> exists i :: 0 <= i < n && t[i].Full? && t[i].key == k
  {
    if n > 0 {
      KeysUpToMembers(t, n - 1, k);
      if t[n - 1].Full? && t[n - 1].key == k {
        assert k in KeysUpTo(t, n);
      }
    }
  }

  ghost predicate AllFull<K, V>(t: seq<Slot<K, V>>, n: nat)
    requires n <= |t|
  {
    forall i :: 0 <= i < n ==> t[i].Full?
  }

  lemma KeysUpToNew<K(!new), V(!new)>(t: seq<Slot<K, V>>, home: K -> nat, n: nat)
    requires Chained(t, home) && n < |t| && t[n].Full?
    ensures t[n].key !in KeysUpTo(t, n)
  {
    KeysUpToMembers(t, n, t[n].key);
    forall i | 0 <= i < n && t[i].Full? ensures t[i].key != t[n].key {
      if t[i].key == t[n].key {
        SameKeySameSlot(t, home, i, n);
      }
    }
  }

  lemma {:induction false} KeysUpToSize<K(!new), V(!new)>(t: seq<Slot<K, V>>, home: K -> nat, n: nat)
    requires Chained(t, home) && n <= |t|
    ensures |KeysUpTo(t, n)| <= n
    ensures |KeysUpTo(t, n)| == n <==> AllFull(t, n)
  {
    if n > 0 {
      KeysUpToSize(t, home, n - 1);
      var before := KeysUpTo(t, n - 1);
      assert AllFull(t, n) <==> AllFull(t, n - 1) && t[n - 1].Full?;
      if t[n - 1].Full? {
        KeysUpToNew(t, home, n - 1);
        assert |before + {t[n - 1].key}| == |before| + 1;
      } else {
        assert before + {} == before;
      }
    }
  }

  /** The map has as many entries as there are slots exactly when no slot is empty. */
  lemma FullIffNoRoom<K(!new), V(!new)>(t: seq<Slot<K, V>>, home: K -> nat, m: map<K, V>)
    requires Holds(t, home, m)
    ensures |m| <= |t|
    ensures |m| == |t| <==> AllFull(t, |t|)
  {
    forall k ensures k in KeysUpTo(t, |t|) <==> k in m.Keys {
      KeysUpToMembers(t, |t|, k);
      assert k in m ==> Occurs(t, k, m[k]);
    }
    assert KeysUpTo(t, |t|) == m.Keys;
    KeysUpToSize(t, home, |t|);
  }
}
