/**
 Splicing translated expressions into the text of a macro call.  The patches come sorted
 by descending start offset, then end, and are applied in that order, each to the buffer that the
 previous ones have changed.
 */
module MacroSplice {

  type Bytes = seq<bv8>

  datatype Patch = Patch(start: int, end: int, text: Bytes)

  /** The range check, against a buffer of n bytes. */
  predicate InRange(p: Patch, n: nat) {
    0 <= p.start < p.end <= n
  }

  /** The patches are in descending order, and no two that cover anything overlap. */
  predicate DisjointDescending(ps: seq<Patch>) {
    forall i, j :: 0 <= i < j < |ps| && ps[i].start < ps[i].end && ps[j].start < ps[j].end ==> ps[j].end <= ps[i].start
  }

  /** The patches that lie within the original text, from left to right. */
  function Within(ps: seq<Patch>, n: nat): seq<Patch> {
    if ps == [] then []
    else
      var others := Within(ps[..|ps| - 1], n);
      if InRange(ps[|ps| - 1], n) then [ps[|ps| - 1]] + others else others
  }

  /** One after the other, from left to right, none reaching into the next. */
  predicate Ascending(qs: seq<Patch>, from: nat, n: nat) {
    if qs == [] then from <= n
    else from <= qs[0].start < qs[0].end <= n && Ascending(qs[1..], qs[0].end, n)
  }

  /** The text from an offset on, rebuilt from left to right: the gaps between the patches
      come from the source. */
  function Rebuild(src: Bytes, from: nat, qs: seq<Patch>): Bytes
    requires Ascending(qs, from, |src|)
    decreases |qs|
  {
    if qs == [] then src[from..]
    else src[from..qs[0].start] + qs[0].text + Rebuild(src, qs[0].end, qs[1..])
  }

  lemma Reassociate(a: Bytes, b: Bytes, c: Bytes, d: Bytes)
    ensures a + (b + c + d) == (a + b) + c + d
  {
  }

  /** What comes before the first patch is still there. */
  lemma {:induction false} RebuildPrefix(src: Bytes, m: nat, qs: seq<Patch>)
    requires Ascending(qs, m, |src|)
    ensures Ascending(qs, 0, |src|) && Rebuild(src, 0, qs) == src[..m] + Rebuild(src, m, qs)
  {
    if qs == [] {
      assert src[0..] == src[..m] + src[m..];
    } else {
      var q := qs[0];
      var rest := Rebuild(src, q.end, qs[1..]);
      assert src[0..q.start] == src[..m] + src[m..q.start];
      Reassociate(src[..m], src[m..q.start], q.text, rest);
    }
  }

  /** Applying the next patch to the left at its original offsets. */
  lemma PatchInPlace(src: Bytes, p: Patch, qs: seq<Patch>)
    requires InRange(p, |src|) && Ascending(qs, p.end, |src|)
    ensures Ascending(qs, 0, |src|) && Ascending([p] + qs, 0, |src|)
    ensures var buffer := Rebuild(src, 0, qs);
      && InRange(p, |buffer|)
      && buffer[..p.start] + p.text + buffer[p.end..] == Rebuild(src, 0, [p] + qs)
  {
    RebuildPrefix(src, p.end, qs);
    var buffer := Rebuild(src, 0, qs);
    assert buffer[..p.start] == src[..p.start];
    assert buffer[p.end..] == Rebuild(src, p.end, qs);
    assert ([p] + qs)[1..] == qs;
  }

  lemma {:induction false} WithinAscending(ps: seq<Patch>, n: nat, from: nat)
    requires DisjointDescending(ps) && from <= n
    requires forall i :: 0 <= i < |ps| && InRange(ps[i], n) ==> from <= ps[i].start
    ensures Ascending(Within(ps, n), from, n)
  {
    if ps != [] {
      var last, front := ps[|ps| - 1], ps[..|ps| - 1];
      assert forall i :: 0 <= i < |front| ==> front[i] == ps[i];
      WithinAscending(front, n, if InRange(last, n) then last.end else from);
      assert InRange(last, n) ==> Within(ps, n)[1..] == Within(front, n);
    }
  }

  /** A patch out of range of the original text meets a buffer that no patch has changed
      yet, or is out of range of any buffer. */
  lemma NoneBefore(ps: seq<Patch>, k: nat, n: nat)
    requires DisjointDescending(ps) && k < |ps| && 0 <= ps[k].start < ps[k].end && n < ps[k].end
    ensures Within(ps[..k], n) == []
  {
    forall i | 0 <= i < k ensures !InRange(ps[i], n) {}
    NoneWithin(ps[..k], n);
  }

  lemma {:induction false} NoneWithin(ps: seq<Patch>, n: nat)
    requires forall i :: 0 <= i < |ps| ==> !InRange(ps[i], n)
    ensures Within(ps, n) == []
  {
    if ps != [] {
      NoneWithin(ps[..|ps| - 1], n);
    }
  }

  /** Back to front in one buffer gives what rebuilding from left to right gives, from
      exactly the patches that lie within the original text: although the buffer's length
      changes, the range check accepts those and no others. */
  method Apply(src: Bytes, ps: seq<Patch>) returns (buffer: Bytes)
    requires DisjointDescending(ps)
    ensures Ascending(Within(ps, |src|), 0, |src|)
    ensures buffer == Rebuild(src, 0, Within(ps, |src|))
  {
    buffer := src;
    for k := 0 to |ps|
      invariant Ascending(Within(ps[..k], |src|), 0, |src|)
      invariant buffer == Rebuild(src, 0, Within(ps[..k], |src|))
    {
      ghost var qs := Within(ps[..k], |src|);
      assert ps[..k + 1][..k] == ps[..k];
      StepRight(src, ps, k);
      if 0 <= ps[k].start < ps[k].end <= |buffer| {
        buffer := buffer[..ps[k].start] + ps[k].text + buffer[ps[k].end..];
      }
    }
    assert ps[..|ps|] == ps;
  }

  /** The range check against the buffer decides as the one against the source would. */
  lemma StepRight(src: Bytes, ps: seq<Patch>, k: nat)
    requires DisjointDescending(ps) && k < |ps| && Ascending(Within(ps[..k], |src|), 0, |src|)
    ensures Ascending(Within(ps[..k + 1], |src|), 0, |src|)
    ensures var buffer := Rebuild(src, 0, Within(ps[..k], |src|)); var p := ps[k];
      if InRange(p, |buffer|)
      then buffer[..p.start] + p.text + buffer[p.end..] == Rebuild(src, 0, Within(ps[..k + 1], |src|))
      else buffer == Rebuild(src, 0, Within(ps[..k + 1], |src|))
  {
    var p := ps[k];
    assert ps[..k + 1][..k] == ps[..k];
    if InRange(p, |src|) {
      WithinAscending(ps[..k], |src|, p.end);
      PatchInPlace(src, p, Within(ps[..k], |src|));
    } else if 0 <= p.start < p.end {
      NoneBefore(ps, k, |src|);
    }
  }

  function Splice(buffer: Bytes, p: Patch): Bytes {
    if InRange(p, |buffer|) then buffer[..p.start] + p.text + buffer[p.end..] else buffer
  }

  /** Why the patches must not overlap: a patch inside another one, which is applied first,
      shifts what the outer one cuts off, or shortens the buffer so much that the outer one
      is skipped.  The result is the outer one alone if and only if the inner text is as
      long as what it replaces, or, when the outer one is skipped, the inner one happens to
      make the same text. */
  lemma NestedExact(src: Bytes, inner: Patch, outer: Patch)
    requires InRange(inner, |src|) && InRange(outer, |src|)
    requires outer.start < inner.start && inner.end <= outer.end
    ensures Splice(Splice(src, inner), outer) == Rebuild(src, 0, [outer]) <==>
            if outer.end + (inner.end - inner.start) <= |src| + |inner.text|
            then |inner.text| == inner.end - inner.start
            else src[outer.start..inner.start] + inner.text + src[inner.end..outer.end] == outer.text
  {
    Alone(src, outer);
    if InRange(outer, |Splice(src, inner)|) {
      OuterApplied(src, inner, outer);
    } else {
      OuterSkipped(src, inner, outer);
    }
  }

  lemma OuterApplied(src: Bytes, inner: Patch, outer: Patch)
    requires InRange(inner, |src|) && InRange(outer, |src|) && outer.start < inner.start && inner.end <= outer.end
    requires InRange(outer, |Splice(src, inner)|)
    ensures Splice(Splice(src, inner), outer) == Splice(src, outer) <==> |inner.text| == inner.end - inner.start
  {
    var buffer := Splice(src, inner);
    assert buffer[..outer.start] == src[..outer.start];
    if |inner.text| == inner.end - inner.start {
      assert buffer[outer.end..] == src[outer.end..];
    }
  }

  lemma OuterSkipped(src: Bytes, inner: Patch, outer: Patch)
    requires InRange(inner, |src|) && InRange(outer, |src|) && outer.start < inner.start && inner.end <= outer.end
    ensures Splice(src, inner) == Splice(src, outer) <==>
            src[outer.start..inner.start] + inner.text + src[inner.end..outer.end] == outer.text
  {
    var middle := src[outer.start..inner.start] + inner.text + src[inner.end..outer.end];
    assert src[..inner.start] == src[..outer.start] + src[outer.start..inner.start];
    assert src[inner.end..] == src[inner.end..outer.end] + src[outer.end..];
    assert Splice(src, inner) == src[..outer.start] + middle + src[outer.end..];
    SameMiddle(src[..outer.start], middle, outer.text, src[outer.end..]);
  }

  /** One patch, rebuilt. */
  lemma Alone(src: Bytes, p: Patch)
    requires InRange(p, |src|)
    ensures Rebuild(src, 0, [p]) == src[..p.start] + p.text + src[p.end..] == Splice(src, p)
  {
    assert [p][1..] == [];
    assert src[0..p.start] == src[..p.start];
  }

  lemma SameMiddle(a: Bytes, b: Bytes, c: Bytes, d: Bytes)
    ensures a + b + d == a + c + d <==> b == c
  {
    if a + b + d == a + c + d {
      assert |b| == |c|;
      assert b == (a + b + d)[|a|..|a| + |b|];
      assert c == (a + c + d)[|a|..|a| + |c|];
    }
  }

  /** Of two patches that start together the longer one is applied first: the other one leaves
      the result alone if and only if it is skipped or replaces a text by itself. */
  lemma OuterFirstExact(src: Bytes, inner: Patch, outer: Patch)
    requires InRange(inner, |src|) && InRange(outer, |src|)
    requires outer.start == inner.start && inner.end <= outer.end
    ensures var alone := Rebuild(src, 0, [outer]);
      Splice(Splice(src, outer), inner) == alone <==>
      !InRange(inner, |alone|) || alone[inner.start..inner.end] == inner.text
  {
    var alone := Splice(src, outer);
    Alone(src, outer);
    if InRange(inner, |alone|) {
      var was := alone[inner.start..inner.end];
      assert alone == alone[..inner.start] + was + alone[inner.end..];
      SameMiddle(alone[..inner.start], inner.text, was, alone[inner.end..]);
    }
  }
}
