/**
 Ivar offsets of non-fragile classes: each ivar is placed after the previous one, at an
 alignment of its size or the pointer size, whichever is smaller.
 */
module IvarLayout {

  /** y & m for a mask of at most three bits. */
  function And(y: nat, m: nat): nat
    requires m < 8
  {
    (if m % 2 == 1 then y % 2 else 0) +
    (if m / 2 % 2 == 1 then y / 2 % 2 * 2 else 0) +
    (if m / 4 == 1 then y / 4 % 2 * 4 else 0)
  }

  function Alignment(size: nat, ptrSize: nat): (a: nat)
    requires ptrSize > 0
    ensures 0 < a <= ptrSize
  {
    if size > ptrSize then ptrSize else if size == 0 then 1 else size
  }

  /** (offset + align - 1) & ~(align - 1) */
  function AlignUp(offset: nat, align: nat): (r: nat)
    requires 0 < align <= 8
    ensures offset <= r < offset + align
  {
    var y := offset + align - 1;
    y - And(y, align - 1)
  }

  predicate PowerOfTwo(a: nat) {
    a == 1 || a == 2 || a == 4 || a == 8
  }

  lemma AlignedUp(offset: nat, align: nat)
    requires PowerOfTwo(align)
    ensures AlignUp(offset, align) % align == 0
  {
    if align == 8 {
      AlignedEight(offset);
    } else if align == 4 {
      AlignedFour(offset);
    } else if align == 2 {
      AlignedTwo(offset);
    }
  }

  lemma AlignedTwo(offset: nat)
    ensures AlignUp(offset, 2) % 2 == 0
  {
  }

  lemma AlignedFour(offset: nat)
    ensures AlignUp(offset, 4) % 4 == 0
  {
    var y := offset + 3;
    MaskTwo(y);
    RoundDownFour(y);
    assert AlignUp(offset, 4) == y - And(y, 3);
  }

  lemma RoundDownFour(y: nat)
    ensures (y - y % 4) % 4 == 0
  {
    assert y - y % 4 == 4 * (y / 4);
  }

  lemma AlignedEight(offset: nat)
    ensures AlignUp(offset, 8) % 8 == 0
  {
    var y := offset + 7;
    MaskThree(y);
    RoundDown(y);
    assert AlignUp(offset, 8) == y - And(y, 7);
  }

  lemma RoundDown(y: nat)
    ensures (y - y % 8) % 8 == 0
  {
    assert y - y % 8 == 8 * (y / 8);
  }

  lemma MaskTwo(y: nat)
    ensures And(y, 3) == y % 4
  {
    LastTwo(y);
  }

  lemma LastTwo(y: nat)
    ensures y % 4 == y % 2 + y / 2 % 2 * 2
  {
    var q, r := y / 4, y % 4;
    assert y == 4 * q + r;
    assert y / 2 == 2 * q + r / 2;
  }

  lemma MaskThree(y: nat)
    ensures And(y, 7) == y % 8
  {
    LastTwo(y);
    LastThree(y);
  }

  lemma LastThree(y: nat)
    ensures y % 8 == y % 4 + y / 4 % 2 * 4
  {
    var h := y / 4;
    RemainderOfEight(y, h / 2, h % 2 * 4 + y % 4);
  }

  lemma RemainderOfEight(y: nat, k: nat, rest: nat)
    requires y == 8 * k + rest && rest < 8
    ensures y % 8 == rest
  {
  }

  datatype Layout = Layout(offsets: seq<nat>, end: nat)

  /** Where the ivars of these sizes end up when the first free byte is `base`. */
  function Place(sizes: seq<nat>, base: nat, ptrSize: nat): Layout
    requires ptrSize == 4 || ptrSize == 8
  {
    if sizes == [] then Layout([], base)
    else
      var n := |sizes| - 1;
      var before := Place(sizes[..n], base, ptrSize);
      var offset := AlignUp(before.end, Alignment(sizes[n], ptrSize));
      Layout(before.offsets + [offset], offset + sizes[n])
  }

  /** The ivars come after the inherited part, in order, without overlapping each other or
      the end of the instance. */
  lemma {:induction false} PlacedApart(sizes: seq<nat>, base: nat, ptrSize: nat)
    requires ptrSize == 4 || ptrSize == 8
    ensures var l := Place(sizes, base, ptrSize);
      && |l.offsets| == |sizes| && base <= l.end
      && (forall i :: 0 <= i < |sizes| ==> base <= l.offsets[i] && l.offsets[i] + sizes[i] <= l.end)
      && (forall i, j :: 0 <= i < j < |sizes| ==> l.offsets[i] + sizes[i] <= l.offsets[j])
  {
    if sizes != [] {
      PlacedApart(sizes[..|sizes| - 1], base, ptrSize);
    }
  }

  /** An ivar whose alignment is a power of two is aligned to it; that covers every ivar
      of pointer size and more. */
  lemma {:induction false} PlacedAligned(sizes: seq<nat>, base: nat, ptrSize: nat, i: nat)
    requires ptrSize == 4 || ptrSize == 8
    requires i < |sizes| && PowerOfTwo(Alignment(sizes[i], ptrSize))
    ensures i < |Place(sizes, base, ptrSize).offsets|
    ensures Place(sizes, base, ptrSize).offsets[i] % Alignment(sizes[i], ptrSize) == 0
  {
    var n := |sizes| - 1;
    PlacedApart(sizes, base, ptrSize);
    PlacedApart(sizes[..n], base, ptrSize);
    if i == n {
      AlignedUp(Place(sizes[..n], base, ptrSize).end, Alignment(sizes[n], ptrSize));
    } else {
      PlacedAligned(sizes[..n], base, ptrSize, i);
    }
  }

  /** Where the i-th ivar could start at the earliest. */
  function EndBefore(sizes: seq<nat>, offsets: seq<nat>, base: nat, i: nat): nat
    requires i <= |sizes| == |offsets|
  {
    if i == 0 then base else offsets[i - 1] + sizes[i - 1]
  }

  /** No space is wasted: the gap before an ivar is smaller than its size and than a pointer,
      a power of two has no multiple in the gap, and the instance ends with the last ivar. */
  ghost predicate Tight(sizes: seq<nat>, offsets: seq<nat>, end: nat, base: nat, ptrSize: nat) {
    && |offsets| == |sizes| && end == EndBefore(sizes, offsets, base, |sizes|)
    && forall i :: 0 <= i < |sizes| ==> FitsAt(sizes, offsets, base, ptrSize, i)
  }

  ghost predicate FitsAt(sizes: seq<nat>, offsets: seq<nat>, base: nat, ptrSize: nat, i: nat)
    requires i < |sizes| == |offsets|
  {
    FirstFit(sizes[i], EndBefore(sizes, offsets, base, i), offsets[i], ptrSize)
  }

  ghost predicate FirstFit(size: nat, from: nat, offset: nat, ptrSize: nat) {
    var align := if size == 0 then 1 else if size < ptrSize then size else ptrSize;
    && from <= offset < from + align && align <= 8 && And(offset, align - 1) == 0
    && (PowerOfTwo(align) ==> offset % align == 0 && forall x :: from <= x < offset ==> x % align != 0)
  }

  lemma {:induction false} PlacedTight(sizes: seq<nat>, base: nat, ptrSize: nat)
    requires ptrSize == 4 || ptrSize == 8
    ensures var l := Place(sizes, base, ptrSize); Tight(sizes, l.offsets, l.end, base, ptrSize)
  {
    if sizes != [] {
      var n := |sizes| - 1;
      var before := Place(sizes[..n], base, ptrSize);
      PlacedTight(sizes[..n], base, ptrSize);
      PlacedFirst(sizes[n], before.end, ptrSize);
      TightNext(sizes, before, AlignUp(before.end, Alignment(sizes[n], ptrSize)), base, ptrSize);
    }
  }

  lemma TightNext(sizes: seq<nat>, before: Layout, offset: nat, base: nat, ptrSize: nat)
    requires sizes != [] && Tight(sizes[..|sizes| - 1], before.offsets, before.end, base, ptrSize)
    requires FirstFit(sizes[|sizes| - 1], before.end, offset, ptrSize)
    ensures Tight(sizes, before.offsets + [offset], offset + sizes[|sizes| - 1], base, ptrSize)
  {
    var n := |sizes| - 1;
    var offsets := before.offsets + [offset];
    forall i | 0 <= i < |sizes| ensures FitsAt(sizes, offsets, base, ptrSize, i) {
      if i < n {
        assert FitsAt(sizes[..n], before.offsets, base, ptrSize, i);
        SameFit(sizes, sizes[..n], offsets, before.offsets, base, ptrSize, i);
      } else {
        assert EndBefore(sizes, offsets, base, n) == EndBefore(sizes[..n], before.offsets, base, n);
      }
    }
  }

  lemma SameFit(sizes: seq<nat>, sizes': seq<nat>, offsets: seq<nat>, offsets': seq<nat>, base: nat, ptrSize: nat,
                i: nat)
    requires i < |sizes| == |offsets| && i < |sizes'| == |offsets'|
    requires sizes'[i] == sizes[i] && offsets'[i] == offsets[i]
    requires i > 0 ==> sizes'[i - 1] == sizes[i - 1] && offsets'[i - 1] == offsets[i - 1]
    ensures FitsAt(sizes, offsets, base, ptrSize, i) <==> FitsAt(sizes', offsets', base, ptrSize, i)
  {
  }

  lemma PlacedFirst(size: nat, from: nat, ptrSize: nat)
    requires ptrSize == 4 || ptrSize == 8
    ensures FirstFit(size, from, AlignUp(from, Alignment(size, ptrSize)), ptrSize)
  {
    var align := Alignment(size, ptrSize);
    MaskClear(from + align - 1, align - 1);
    if PowerOfTwo(align) {
      AlignedUp(from, align);
      forall x | from <= x < AlignUp(from, align) ensures x % align != 0 {
        NoMultipleBetween(x, AlignUp(from, align), align);
      }
    }
  }

  /** Clearing the bits of a mask leaves none of them. */
  lemma MaskClear(y: nat, m: nat)
    requires m < 8
    ensures And(y, m) <= y && And(y - And(y, m), m) == 0
  {
    var q, a, b, c := y / 8, y % 2, y / 2 % 2, y / 4 % 2;
    LastTwo(y);
    LastThree(y);
    assert y == 8 * q + 4 * c + 2 * b + a;
    var a', b', c' := if m % 2 == 1 then 0 else a, if m / 2 % 2 == 1 then 0 else b, if m / 4 == 1 then 0 else c;
    AndBits(q, c, b, a, m);
    AndBits(q, c', b', a', m);
  }

  lemma AndBits(q: nat, c: nat, b: nat, a: nat, m: nat)
    requires a < 2 && b < 2 && c < 2 && m < 8
    ensures And(8 * q + 4 * c + 2 * b + a, m) ==
            (if m % 2 == 1 then a else 0) + (if m / 2 % 2 == 1 then 2 * b else 0) + (if m / 4 == 1 then 4 * c else 0)
  {
    ThreeBits(q, c, b, a);
  }

  lemma ThreeBits(q: nat, c: nat, b: nat, a: nat)
    requires a < 2 && b < 2 && c < 2
    ensures var z := 8 * q + 4 * c + 2 * b + a; z % 2 == a && z / 2 % 2 == b && z / 4 % 2 == c
  {
    LowBit(4 * q + 2 * c + b, a);
    LowBit(2 * q + c, b);
    LowBit(q, c);
    var z := 8 * q + 4 * c + 2 * b + a;
    assert z / 4 == z / 2 / 2;
  }

  lemma LowBit(n: nat, b: nat)
    requires b < 2
    ensures (2 * n + b) % 2 == b && (2 * n + b) / 2 == n
  {
  }

  lemma NoMultipleBetween(x: nat, y: nat, align: nat)
    requires PowerOfTwo(align) && y % align == 0 && y - align < x < y
    ensures x % align != 0
  {
  }

  method PlaceIvars(sizes: seq<nat>, base: nat, ptrSize: nat) returns (offsets: seq<nat>, end: nat)
    requires ptrSize == 4 || ptrSize == 8
    ensures Layout(offsets, end) == Place(sizes, base, ptrSize)
  {
    offsets, end := [], base;
    for i := 0 to |sizes|
      invariant Layout(offsets, end) == Place(sizes[..i], base, ptrSize)
    {
      assert sizes[..i + 1][..i] == sizes[..i];
      end := AlignUp(end, Alignment(sizes[i], ptrSize));
      offsets := offsets + [end];
      end := end + sizes[i];
    }
    assert sizes[..|sizes|] == sizes;
  }
}
