/**
 The flags word of a block: bit 0 marks a block that is being deallocated, bits 1 to 15
 count references, and the upper half holds the flags proper.
 */
module BlockFlags {

  const COUNT_LIMIT := 32768

  /** Bits 24, 25 and 28 of the word, as bits of its upper half. */
  const NEEDS_FREE: nat := 8
  const HAS_HELPERS: nat := 9
  const IS_GLOBAL: nat := 12

  predicate Bit(upper: nat, k: nat) {
    if k == 0 then upper % 2 == 1 else Bit(upper / 2, k - 1)
  }

  /** upper | 1 << k */
  function SetBit(upper: nat, k: nat): nat {
    if k == 0 then (if upper % 2 == 1 then upper else upper + 1) else 2 * SetBit(upper / 2, k - 1) + upper % 2
  }

  /** Setting one bit leaves the others alone. */
  lemma {:induction false} SetBitOnly(upper: nat, k: nat, j: nat)
    ensures Bit(SetBit(upper, k), j) <==> j == k || Bit(upper, j)
  {
    if k > 0 && j > 0 {
      SetBitOnly(upper / 2, k - 1, j - 1);
    }
  }

  datatype Flags = Flags(count: nat, deallocating: bool, upper: nat) {
    predicate NeedsFree() {
      Bit(upper, NEEDS_FREE)
    }

    predicate HasHelpers() {
      Bit(upper, HAS_HELPERS)
    }

    predicate IsGlobal() {
      Bit(upper, IS_GLOBAL)
    }
  }

  function Decode(word: nat): Flags {
    if word < 65536 then Flags(word / 2, word % 2 == 1, 0)
    else
      var f := Decode(word - 65536);
      f.(upper := f.upper + 1)
  }

  /** The fields are the parts of the word, and determine it. */
  lemma {:induction false} Parts(word: nat)
    ensures var f := Decode(word);
      && f.count == word / 2 % COUNT_LIMIT && (f.deallocating <==> word % 2 == 1) && f.upper == word / 65536
      && word == f.upper * 65536 + 2 * f.count + if f.deallocating then 1 else 0
  {
    if word >= 65536 {
      Parts(word - 65536);
      OneUpper(word - 65536);
    }
  }

  lemma OneUpper(word: nat)
    ensures (word + 65536) / 2 % COUNT_LIMIT == word / 2 % COUNT_LIMIT && (word + 65536) % 2 == word % 2
    ensures (word + 65536) / 65536 == word / 65536 + 1
  {
    assert (word + 65536) / 2 == word / 2 + COUNT_LIMIT;
    assert (word / 2 + COUNT_LIMIT) % COUNT_LIMIT == word / 2 % COUNT_LIMIT;
  }

  lemma {:induction false} Joined(upper: nat, count: nat, low: nat)
    requires count < COUNT_LIMIT && low < 2
    ensures Decode(upper * 65536 + 2 * count + low) == Flags(count, low == 1, upper)
  {
    if upper > 0 {
      Joined(upper - 1, count, low);
    }
  }

  /** The words differ in the count only. */
  predicate SameButCount(word: nat, made: nat) {
    Decode(word) == Decode(made).(count := Decode(word).count)
  }

  /** Adding two counts one reference more and leaves every other field alone, below the
      limit; at the limit the count starts again and the carry changes the flags proper. */
  lemma {:induction false} AddTwo(word: nat)
    ensures var f := Decode(word);
      Decode(word + 2) == if f.count + 1 < COUNT_LIMIT
                          then f.(count := f.count + 1)
                          else f.(count := 0, upper := f.upper + 1)
  {
    if word >= 65536 {
      AddTwo(word - 65536);
    }
  }

  /** Subtracting two counts one reference less, if there is one. */
  lemma {:induction false} SubTwo(word: nat)
    requires Decode(word).count > 0
    ensures word >= 2 && Decode(word - 2) == Decode(word).(count := Decode(word).count - 1)
  {
    if word >= 65536 {
      SubTwo(word - 65536);
    }
  }

  /** (flags & ~BLOCK_REFCOUNT_MASK) | BLOCK_NEEDS_FREE | 2 */
  function HeapWord(word: nat): nat {
    SetBit(word / 65536, NEEDS_FREE) * 65536 + 2 + word % 2
  }

  /** A heap copy starts with one reference and the free bit, its other bits as they were. */
  lemma HeapWordDecodes(word: nat)
    ensures var f, g := Decode(HeapWord(word)), Decode(word);
      && f == g.(count := 1, upper := SetBit(g.upper, NEEDS_FREE))
      && f.NeedsFree() && (f.HasHelpers() <==> g.HasHelpers()) && (f.IsGlobal() <==> g.IsGlobal())
  {
    Parts(word);
    var upper := word / 65536;
    Joined(SetBit(upper, NEEDS_FREE), 1, word % 2);
    SetBitOnly(upper, NEEDS_FREE, NEEDS_FREE);
    SetBitOnly(upper, NEEDS_FREE, HAS_HELPERS);
    SetBitOnly(upper, NEEDS_FREE, IS_GLOBAL);
  }
}
