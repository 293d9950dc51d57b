/**
 What a copied block captures, which objects it retains, and that memory taken for heap
 blocks comes back.
 */
module BlockCopies {
  import opened Wrappers
  import opened BlockFlags
  import opened Blocks

  // ---------- what a copy captures ----------

  /** A block that is neither global nor on the heap. */
  predicate OnStack(b: Block) {
    b.life == Outer && !b.Fields().IsGlobal()
  }

  /** What a captured variable becomes when its block is copied: an object, null, a global
      block or a heap block stays what it is; a block literal becomes null, if memory has run
      out, or a new heap block that captures the same in its turn. */
  ghost predicate CopyOf(h: Heap, h': Heap, from: Capture, to: Capture)
    decreases if from.Blk? then from.b + 1 else 0, 0
  {
    if !from.Blk? then to == from
    else
      && from.b < |h.blocks|
      && if !OnStack(h.blocks[from.b]) then to == from
         else if to == Null then h'.room == 0
         else to.Blk? && |h.blocks| <= to.b < |h'.blocks| && HeapCopy(h, h', from.b, h'.blocks[to.b])
  }

  /** The heap block has the literal's flags, marked as a heap block with one reference when
      it was made, and captures what the literal captures, one by one. */
  ghost predicate HeapCopy(h: Heap, h': Heap, r: Ref, copy: Block)
    requires r < |h.blocks|
    decreases r, 1
  {
    var src := h.blocks[r];
    && copy.life == Live && copy.made == HeapWord(src.word)
    && |copy.captures| == |src.captures|
    && forall k :: 0 <= k < |src.captures| ==>
         (src.captures[k].Blk? ==> src.captures[k].b < r) && CopyOf(h, h', src.captures[k], copy.captures[k])
  }

  ghost predicate CopiesOf(h: Heap, h': Heap, from: seq<Capture>, to: seq<Capture>) {
    |to| == |from| && forall k :: 0 <= k < |from| ==> CopyOf(h, h', from[k], to[k])
  }

  /** Blocks that are there stay, except for their counts and the captures of block n. */
  ghost predicate StaysBut(h: Heap, h': Heap, n: nat) {
    && |h.blocks| <= |h'.blocks| && h'.room <= h.room
    && forall i {:trigger h'.blocks[i]} :: 0 <= i < |h.blocks| && i != n ==>
         h'.blocks[i] == h.blocks[i].(word := h'.blocks[i].word)
  }

  /** What has been copied stays so while more is copied. */
  lemma {:induction false} CopyStays(h: Heap, h1: Heap, h2: Heap, from: Capture, to: Capture, n: nat)
    requires CopyOf(h, h1, from, to) && StaysBut(h1, h2, n) && n < |h.blocks|
    ensures CopyOf(h, h2, from, to)
    decreases if from.Blk? then from.b + 1 else 0
  {
    if from.Blk? && OnStack(h.blocks[from.b]) && to.Blk? {
      var src, copy := h.blocks[from.b], h1.blocks[to.b];
      assert h2.blocks[to.b] == copy.(word := h2.blocks[to.b].word);
      forall k | 0 <= k < |src.captures| ensures CopyOf(h, h2, src.captures[k], copy.captures[k]) {
        CopyStays(h, h1, h2, src.captures[k], copy.captures[k], n);
      }
    }
  }

  /** Seen from an earlier heap the copies are the same. */
  lemma {:induction false} CopyEarlier(h: Heap, h1: Heap, h2: Heap, from: Capture, to: Capture)
    requires Grows(h, h1) && CopyOf(h1, h2, from, to) && (from.Blk? ==> Ready(h, from.b))
    requires AllSane(h) && AllSane(h1)
    ensures CopyOf(h, h2, from, to)
    decreases if from.Blk? then from.b + 1 else 0
  {
    if from.Blk? {
      SameStack(h, h1, from.b);
      if OnStack(h.blocks[from.b]) && to.Blk? {
        var src, copy := h.blocks[from.b], h2.blocks[to.b];
        forall k | 0 <= k < |src.captures| ensures CopyOf(h, h2, src.captures[k], copy.captures[k]) {
          assert src.captures[k] in src.captures;
          CopyEarlier(h, h1, h2, src.captures[k], copy.captures[k]);
        }
      }
    }
  }

  lemma SameStack(h: Heap, h1: Heap, r: Ref)
    requires Grows(h, h1) && r < |h.blocks| && AllSane(h) && AllSane(h1)
    ensures OnStack(h1.blocks[r]) <==> OnStack(h.blocks[r])
    ensures OnStack(h.blocks[r]) ==> h1.blocks[r] == h.blocks[r]
  {
    assert h1.blocks[r] == h.blocks[r].(word := h1.blocks[r].word);
  }

  /** Copying a block: a global or heap block is returned as it is; a literal gives a new
      heap block that corresponds to it capture by capture, or null without memory. */
  lemma {:induction false} CopyMeans(h: Heap, r: Ref)
    requires AllSane(h) && Ready(h, r) && Copy(h, r).Copied?
    ensures CopyOf(h, Copy(h, r).heap, Blk(r), Copy(h, r).result)
    ensures OnStack(h.blocks[r]) && h.room > 0 ==> Copy(h, r).result == Blk(|h.blocks|)
    decreases r, 2
  {
    assert Sane(h.blocks[r]);
    if OnStack(h.blocks[r]) && h.room > 0 {
      LiteralMeans(h, r);
    }
  }

  lemma {:induction false} LiteralMeans(h: Heap, r: Ref)
    requires AllSane(h) && Ready(h, r) && OnStack(h.blocks[r]) && h.room > 0
    requires CopyLiteral(h, r).Copied?
    ensures var k := CopyLiteral(h, r);
      k.result == Blk(|h.blocks|) && |h.blocks| < |k.heap.blocks| &&
      HeapCopy(h, k.heap, r, k.heap.blocks[|h.blocks|])
    decreases r, 1
  {
    var src, n := h.blocks[r], |h.blocks|;
    assert Sane(src);
    FreshSane(src);
    if src.Fields().HasHelpers() {
      HelperMeans(h, r);
    } else {
      forall k | 0 <= k < |src.captures| ensures src.captures[k] == Null {
        assert src.captures[k] in src.captures;
      }
    }
  }

  lemma {:induction false} HelperMeans(h: Heap, r: Ref)
    requires AllSane(h) && Ready(h, r) && OnStack(h.blocks[r]) && h.room > 0
    requires h.blocks[r].Fields().HasHelpers() && CopyLiteral(h, r).Copied?
    ensures var k := CopyLiteral(h, r);
      k.result == Blk(|h.blocks|) && |h.blocks| < |k.heap.blocks| &&
      HeapCopy(h, k.heap, r, k.heap.blocks[|h.blocks|])
    decreases r, 0, |h.blocks[r].captures| + 1
  {
    var src, n := h.blocks[r], |h.blocks|;
    var h1 := h.(blocks := h.blocks + [Fresh(src)], room := h.room - 1);
    FreshSane(src);
    ReadyAllKept(h, h1, src.captures, r);
    CapturesMean(h1, src.captures, r);
    var all := CopyCaptures(h1, src.captures, r);
    var h3 := CopyLiteral(h, r).heap;
    assert h3 == all.heap.(blocks := all.heap.blocks[n := all.heap.blocks[n].(captures := all.results)]);
    forall k | 0 <= k < |src.captures| ensures CopyOf(h, h3, src.captures[k], all.results[k]) {
      assert src.captures[k] in src.captures;
      CopyStays(h1, all.heap, h3, src.captures[k], all.results[k], n);
      CopyEarlier(h, h1, h3, src.captures[k], all.results[k]);
    }
  }

  lemma {:induction false} CapturesMean(h: Heap, caps: seq<Capture>, r: Ref)
    requires AllSane(h) && ReadyAll(h, caps, r) && CopyCaptures(h, caps, r).CopiedAll? && h.blocks != []
    ensures CopiesOf(h, CopyCaptures(h, caps, r).heap, caps, CopyCaptures(h, caps, r).results)
    decreases r, 0, |caps|
  {
    if caps != [] {
      var k0 := Assign(h, caps[0], r);
      ReadyAllKept(h, k0.heap, caps[1..], r);
      var all := CopyCaptures(k0.heap, caps[1..], r);
      if caps[0].Blk? {
        CopyMeans(h, caps[0].b);
      }
      CapturesMean(k0.heap, caps[1..], r);
      FirstStays(h, k0.heap, all.heap, caps[0], k0.result);
      RestEarlier(h, k0.heap, all.heap, caps, r, all.results);
    }
  }

  /** The first capture was copied in the earlier heap, the others after it. */
  lemma RestEarlier(h: Heap, h1: Heap, h2: Heap, caps: seq<Capture>, r: Ref, to: seq<Capture>)
    requires AllSane(h) && AllSane(h1) && ReadyAll(h, caps, r) && caps != [] && Grows(h, h1)
    requires CopiesOf(h1, h2, caps[1..], to)
    ensures CopiesOf(h, h2, caps[1..], to)
  {
    forall k | 0 <= k < |to| ensures CopyOf(h, h2, caps[1..][k], to[k]) {
      assert caps[1..][k] == caps[k + 1] && caps[k + 1] in caps;
      CopyEarlier(h, h1, h2, caps[1..][k], to[k]);
    }
  }

  lemma FirstStays(h: Heap, h1: Heap, h2: Heap, from: Capture, to: Capture)
    requires CopyOf(h, h1, from, to) && Grows(h1, h2) && h.blocks != []
    ensures CopyOf(h, h2, from, to)
  {
    CopyStays(h, h1, h2, from, to, 0);
  }

  // ---------- what a copy retains ----------

  lemma {:induction false} CapturedSplit(first: seq<Block>, blocks: seq<Block>, c: Capture)
    requires |first| <= |blocks|
    requires forall i :: 0 <= i < |first| ==> blocks[i].captures == first[i].captures && blocks[i].life == first[i].life
    ensures Captured(blocks, c) == Captured(first, c) + Captured(blocks[|first|..], c)
    decreases |blocks|
  {
    if |blocks| == |first| {
      SameCaptured(first, blocks, c);
    } else {
      var n := |blocks| - 1;
      CapturedSplit(first, blocks[..n], c);
      assert blocks[..n][|first|..] == blocks[|first|..][..n - |first|];
    }
  }

  lemma {:induction false} SameCaptured(a: seq<Block>, b: seq<Block>, c: Capture)
    requires |a| == |b|
    requires forall i :: 0 <= i < |a| ==> b[i].captures == a[i].captures && b[i].life == a[i].life
    ensures Captured(a, c) == Captured(b, c)
  {
    if a != [] {
      SameCaptured(a[..|a| - 1], b[..|b| - 1], c);
    }
  }

  /** A copy retains each object once for every time that a new block captures it. */
  lemma CopyRetains(h: Heap, r: Ref, o: nat)
    requires AllSane(h) && Ready(h, r) && Copy(h, r).Copied?
    ensures var h' := Copy(h, r).heap;
      |h.blocks| <= |h'.blocks| && h'.retained[o] == h.retained[o] + Captured(h'.blocks[|h.blocks|..], Obj(o))
  {
    var k := Copy(h, r);
    CopyRight(h, r, h.retained[o] - Captured(h.blocks, Obj(o)), Obj(o));
    forall i | 0 <= i < |h.blocks|
      ensures k.heap.blocks[i].captures == h.blocks[i].captures && k.heap.blocks[i].life == h.blocks[i].life
    {
      assert k.heap.blocks[i] == h.blocks[i].(word := k.heap.blocks[i].word);
    }
    CapturedSplit(h.blocks, k.heap.blocks, Obj(o));
    assert !k.result.Obj? by {
      CopyMeans(h, r);
    }
  }

  // ---------- memory ----------

  /** The blocks that memory has room for, and those that are in it. */
  ghost function Memory(h: Heap): nat {
    h.room + |LiveSet(h)|
  }

  /** Every new block is live and takes the room of one. */
  lemma CopyMemory(h: Heap, h': Heap)
    requires Grows(h, h') && forall i :: |h.blocks| <= i < |h'.blocks| ==> h'.blocks[i].life == Live
    ensures Memory(h') == Memory(h)
  {
    RangeSize(|h.blocks|, |h'.blocks|);
    forall i: nat | i < |h.blocks| ensures h'.blocks[i].life == h.blocks[i].life {
      assert h'.blocks[i] == h.blocks[i].(word := h'.blocks[i].word);
    }
    assert LiveSet(h') == LiveSet(h) + Range(|h.blocks|, |h'.blocks|);
  }

  function Range(a: nat, b: nat): set<nat> {
    if a >= b then {} else Range(a, b - 1) + {b - 1}
  }

  lemma {:induction false} RangeSize(a: nat, b: nat)
    requires a <= b
    ensures (forall i: nat :: i in Range(a, b) <==> a <= i < b) && |Range(a, b)| == b - a
    decreases b - a
  {
    if a < b {
      RangeSize(a, b - 1);
    }
  }

  lemma {:induction false} CopiesLive(h: Heap, r: Ref)
    requires AllSane(h) && Ready(h, r) && Copy(h, r).Copied?
    ensures NewLive(h, Copy(h, r).heap)
    decreases r, 2
  {
    assert Sane(h.blocks[r]);
    if OnStack(h.blocks[r]) && h.room > 0 {
      var src := h.blocks[r];
      FreshSane(src);
      if src.Fields().HasHelpers() {
        var h1 := h.(blocks := h.blocks + [Fresh(src)], room := h.room - 1);
        ReadyAllKept(h, h1, src.captures, r);
        CapturesLive(h1, src.captures, r);
        assert CopyCaptures(h1, src.captures, r).heap.blocks[|h.blocks|].life == Live;
      }
    }
  }

  ghost predicate NewLive(h: Heap, h': Heap) {
    |h.blocks| <= |h'.blocks| && forall i :: |h.blocks| <= i < |h'.blocks| ==> h'.blocks[i].life == Live
  }

  lemma {:induction false} CapturesLive(h: Heap, caps: seq<Capture>, r: Ref)
    requires AllSane(h) && ReadyAll(h, caps, r) && CopyCaptures(h, caps, r).CopiedAll?
    ensures NewLive(h, CopyCaptures(h, caps, r).heap)
    decreases r, 0, |caps|
  {
    if caps != [] {
      var k0 := Assign(h, caps[0], r);
      if caps[0].Blk? {
        CopiesLive(h, caps[0].b);
      }
      ReadyAllKept(h, k0.heap, caps[1..], r);
      CapturesLive(k0.heap, caps[1..], r);
      StillLive(h, k0.heap, CopyCaptures(k0.heap, caps[1..], r).heap);
    }
  }

  lemma StillLive(h: Heap, h1: Heap, h2: Heap)
    requires NewLive(h, h1) && Grows(h1, h2) && NewLive(h1, h2)
    ensures NewLive(h, h2)
  {
    forall i | |h.blocks| <= i < |h2.blocks| ensures h2.blocks[i].life == Live {
      if i < |h1.blocks| {
        assert h2.blocks[i] == h1.blocks[i].(word := h2.blocks[i].word);
      }
    }
  }

  /** A release gives back the room of exactly the blocks that it frees. */
  lemma {:induction false} ReleaseMemory(h: Heap, r: Ref)
    requires Release(h, r).Ok?
    ensures Memory(Release(h, r).heap) == Memory(h)
    decreases LiveSet(h), 1, 0
  {
    var b := h.blocks[r];
    if b.life == Live && !b.Fields().IsGlobal() && b.Fields().NeedsFree() {
      if b.Fields().count > 1 {
        assert LiveSet(Release(h, r).heap) == LiveSet(h);
      } else {
        LastMemory(h, r);
      }
    }
  }

  lemma {:induction false} LastMemory(h: Heap, r: Ref)
    requires Release(h, r).Ok? && r < |h.blocks| && h.blocks[r].life == Live && h.blocks[r].Fields().count == 1
    requires !h.blocks[r].Fields().IsGlobal() && h.blocks[r].Fields().NeedsFree()
    ensures Memory(Release(h, r).heap) == Memory(h)
    decreases LiveSet(h), 0, 0
  {
    OpenedLive(h, r);
    LastRuns(h, r);
    DisposeMemory(Opened(h, r), ToDispose(h.blocks[r]));
    ClosedMemory(Dispose(Opened(h, r), ToDispose(h.blocks[r])).heap, r);
  }

  lemma OpenedLive(h: Heap, r: Ref)
    requires r < |h.blocks| && h.blocks[r].life == Live && h.blocks[r].Fields().count > 0
    ensures LiveSet(Opened(h, r)) < LiveSet(h) && Memory(Opened(h, r)) + 1 == Memory(h)
  {
    assert LiveSet(h) == LiveSet(Opened(h, r)) + {r} && r !in LiveSet(Opened(h, r));
  }

  /** The helper comes back, and the block is freed. */
  lemma LastRuns(h: Heap, r: Ref)
    requires Release(h, r).Ok? && r < |h.blocks| && h.blocks[r].life == Live && h.blocks[r].Fields().count == 1
    requires !h.blocks[r].Fields().IsGlobal() && h.blocks[r].Fields().NeedsFree()
    ensures Dispose(Opened(h, r), ToDispose(h.blocks[r])).Ok?
    ensures var h2 := Dispose(Opened(h, r), ToDispose(h.blocks[r])).heap;
      && r < |h2.blocks| && h2.blocks[r].life == Disposing
      && Release(h, r) == Ok(h2.(blocks := h2.blocks[r := h2.blocks[r].(life := Dead)], room := h2.room + 1))
  {
    var res := Dispose(Opened(h, r), ToDispose(h.blocks[r]));
    assert res.Ok? ==> res.heap.blocks[r] == Opened(h, r).blocks[r];
  }

  lemma ClosedMemory(h: Heap, r: Ref)
    requires r < |h.blocks| && h.blocks[r].life == Disposing
    ensures Memory(h.(blocks := h.blocks[r := h.blocks[r].(life := Dead)], room := h.room + 1)) == Memory(h) + 1
  {
    assert LiveSet(h.(blocks := h.blocks[r := h.blocks[r].(life := Dead)], room := h.room + 1)) == LiveSet(h);
  }

  lemma {:induction false} DisposeMemory(h: Heap, caps: seq<Capture>)
    requires Dispose(h, caps).Ok?
    ensures Memory(Dispose(h, caps).heap) == Memory(h)
    decreases LiveSet(h), 2, |caps|
  {
    if caps != [] {
      match caps[0]
      case Null => DisposeMemory(h, caps[1..]);
      case Obj(o) =>
        var h1 := h.(retained := h.retained - multiset{o});
        assert LiveSet(h1) == LiveSet(h);
        DisposeMemory(h1, caps[1..]);
      case Blk(b) =>
        ReleaseMemory(h, b);
        DisposeMemory(Release(h, b).heap, caps[1..]);
    }
  }

  /** Over any run no memory is lost: there is room again for every block that is gone. */
  lemma {:induction false} RunMemory(p: Program, steps: seq<Step>)
    requires Consistent(p)
    ensures Run(p, steps).Some? && Memory(Run(p, steps).value.heap) == Memory(p.heap)
    decreases |steps|
  {
    EveryRun(p, steps);
    if steps != [] {
      if Legal(p, steps[0]) {
        StepCounted(p, steps[0]);
        StepMemory(p, steps[0]);
        RunMemory(Take(p, steps[0]).value, steps[1..]);
      } else {
        RunMemory(p, steps[1..]);
      }
    }
  }

  lemma StepMemory(p: Program, s: Step)
    requires Consistent(p) && Legal(p, s) && Take(p, s).Some?
    ensures Memory(Take(p, s).value.heap) == Memory(p.heap)
  {
    match s
    case Literal(word, captures) =>
      assert LiveSet(Take(p, s).value.heap) == LiveSet(p.heap);
    case Copying(r) =>
      CopiesLive(p.heap, r);
      CopyMemory(p.heap, Copy(p.heap, r).heap);
    case Releasing(r) => ReleaseMemory(p.heap, r);
  }

  // ---------- when a count is exceeded ----------

  /** How often copying a captured variable counts a reference to heap block i. */
  ghost function Bumps(h: Heap, c: Capture, i: nat): nat
    decreases if c.Blk? then c.b else 0, 1, 0
  {
    if !c.Blk? || c.b >= |h.blocks| then 0
    else if h.blocks[c.b].life == Live then if c.b == i then 1 else 0
    else if OnStack(h.blocks[c.b]) then BumpsAll(h, h.blocks[c.b].captures, c.b, i)
    else 0
  }

  ghost function BumpsAll(h: Heap, caps: seq<Capture>, r: Ref, i: nat): nat
    decreases r, 0, |caps|
  {
    if caps == [] then 0
    else (if caps[0].Blk? && caps[0].b < r then Bumps(h, caps[0], i) else 0) + BumpsAll(h, caps[1..], r, i)
  }

  function CountAt(h: Heap, i: nat): nat {
    if i < |h.blocks| && h.blocks[i].life == Live then h.blocks[i].Fields().count else 0
  }

  ghost predicate Fits(h: Heap, c: Capture) {
    forall i: nat {:trigger Bumps(h, c, i)} :: CountAt(h, i) + Bumps(h, c, i) < COUNT_LIMIT
  }

  ghost predicate AllFit(h: Heap, caps: seq<Capture>, r: Ref) {
    forall i: nat {:trigger BumpsAll(h, caps, r, i)} :: CountAt(h, i) + BumpsAll(h, caps, r, i) < COUNT_LIMIT
  }

  /** Only blocks that are there before are counted. */
  lemma {:induction false} BumpsOld(h: Heap, c: Capture, i: nat)
    requires c.Blk? ==> c.b < i
    ensures Bumps(h, c, i) == 0
    decreases if c.Blk? then c.b else 0, 1, 0
  {
    if c.Blk? && c.b < |h.blocks| && OnStack(h.blocks[c.b]) {
      BumpsAllOld(h, h.blocks[c.b].captures, c.b, i);
    }
  }

  lemma {:induction false} BumpsAllOld(h: Heap, caps: seq<Capture>, r: Ref, i: nat)
    requires r <= i
    ensures BumpsAll(h, caps, r, i) == 0
    decreases r, 0, |caps|
  {
    if caps != [] {
      if caps[0].Blk? && caps[0].b < r {
        BumpsOld(h, caps[0], i);
      }
      BumpsAllOld(h, caps[1..], r, i);
    }
  }

  lemma {:induction false} BumpsStay(h: Heap, h1: Heap, c: Capture, i: nat)
    requires Grows(h, h1) && AllSane(h) && AllSane(h1) && (c.Blk? ==> Ready(h, c.b))
    ensures Bumps(h1, c, i) == Bumps(h, c, i)
    decreases if c.Blk? then c.b else 0, 1, 0
  {
    if c.Blk? {
      SameStack(h, h1, c.b);
      assert h1.blocks[c.b] == h.blocks[c.b].(word := h1.blocks[c.b].word);
      if h.blocks[c.b].life != Live && OnStack(h.blocks[c.b]) {
        BumpsAllStay(h, h1, h.blocks[c.b].captures, c.b, i);
      }
    }
  }

  lemma {:induction false} BumpsAllStay(h: Heap, h1: Heap, caps: seq<Capture>, r: Ref, i: nat)
    requires Grows(h, h1) && AllSane(h) && AllSane(h1) && ReadyAll(h, caps, r)
    ensures BumpsAll(h1, caps, r, i) == BumpsAll(h, caps, r, i)
    decreases r, 0, |caps|
  {
    if caps != [] {
      assert caps[0] in caps;
      if caps[0].Blk? {
        BumpsStay(h, h1, caps[0], i);
      }
      BumpsAllStay(h, h1, caps[1..], r, i);
    }
  }

  /** What a copy does to the counts: no more than that, and one for a new block. */
  ghost predicate CountsUpTo(h: Heap, h': Heap, i: nat, bumps: nat) {
    CountAt(h', i) <= if i < |h.blocks| then CountAt(h, i) + bumps else 1
  }

  /** A copy succeeds unless it would count more references to some heap block than its
      flags word has room for. */
  lemma {:induction false} CopyFits(h: Heap, r: Ref)
    requires AllSane(h) && Ready(h, r) && Fits(h, Blk(r))
    ensures Copy(h, r).Copied?
    ensures forall i: nat {:trigger Bumps(h, Blk(r), i)} ::
              CountsUpTo(h, Copy(h, r).heap, i, Bumps(h, Blk(r), i))
    decreases r, 2, 0
  {
    var src := h.blocks[r];
    assert Sane(src);
    if src.life == Live {
      assert CountAt(h, r) + Bumps(h, Blk(r), r) < COUNT_LIMIT;
      BumpSane(src);
    } else if OnStack(src) && h.room > 0 {
      LiteralFits(h, r);
    }
  }

  lemma {:induction false} LiteralFits(h: Heap, r: Ref)
    requires AllSane(h) && Ready(h, r) && Fits(h, Blk(r)) && OnStack(h.blocks[r]) && h.room > 0
    ensures CopyLiteral(h, r).Copied?
    ensures forall i: nat {:trigger Bumps(h, Blk(r), i)} ::
              CountsUpTo(h, CopyLiteral(h, r).heap, i, Bumps(h, Blk(r), i))
    decreases r, 1, 1
  {
    var src := h.blocks[r];
    assert Sane(src);
    FreshSane(src);
    if src.Fields().HasHelpers() {
      var h1 := h.(blocks := h.blocks + [Fresh(src)], room := h.room - 1);
      ReadyAllKept(h, h1, src.captures, r);
      HelperFits(h, h1, r);
      FilledCounts(h, CopyCaptures(h1, src.captures, r).heap, CopyCaptures(h1, src.captures, r).results, r);
    }
  }

  /** Filling in the captures of the new block changes no count. */
  lemma FilledCounts(h: Heap, h2: Heap, caps: seq<Capture>, r: Ref)
    requires |h.blocks| < |h2.blocks|
    requires forall i: nat {:trigger Bumps(h, Blk(r), i)} :: CountsUpTo(h, h2, i, Bumps(h, Blk(r), i))
    ensures var n := |h.blocks|; var h3 := h2.(blocks := h2.blocks[n := h2.blocks[n].(captures := caps)]);
      forall i: nat {:trigger Bumps(h, Blk(r), i)} :: CountsUpTo(h, h3, i, Bumps(h, Blk(r), i))
  {
    var n := |h.blocks|;
    var h3 := h2.(blocks := h2.blocks[n := h2.blocks[n].(captures := caps)]);
    forall i: nat ensures CountAt(h3, i) == CountAt(h2, i) {}
  }

  lemma {:induction false} HelperFits(h: Heap, h1: Heap, r: Ref)
    requires AllSane(h) && AllSane(h1) && Ready(h, r) && Fits(h, Blk(r)) && OnStack(h.blocks[r]) && Grows(h, h1)
    requires h1.blocks == h.blocks + [Fresh(h.blocks[r])] && h1.blocks[|h.blocks|].Fields().count == 1
    requires ReadyAll(h1, h.blocks[r].captures, r)
    ensures CopyCaptures(h1, h.blocks[r].captures, r).CopiedAll?
    ensures forall i: nat {:trigger Bumps(h, Blk(r), i)} ::
              CountsUpTo(h, CopyCaptures(h1, h.blocks[r].captures, r).heap, i, Bumps(h, Blk(r), i))
    decreases r, 1, 0
  {
    var caps := h.blocks[r].captures;
    forall i: nat ensures CountAt(h1, i) + BumpsAll(h1, caps, r, i) < COUNT_LIMIT {
      LiteralBumps(h, h1, r, i);
    }
    CapturesFit(h1, caps, r);
    var h2 := CopyCaptures(h1, caps, r).heap;
    forall i: nat ensures CountsUpTo(h, h2, i, Bumps(h, Blk(r), i)) {
      assert CountsUpTo(h1, h2, i, BumpsAll(h1, caps, r, i));
      LiteralCounts(h, h1, h2, r, i);
    }
  }

  /** What the captures of a literal count, with the new block and without. */
  lemma LiteralBumps(h: Heap, h1: Heap, r: Ref, i: nat)
    requires AllSane(h) && AllSane(h1) && Ready(h, r) && Fits(h, Blk(r)) && OnStack(h.blocks[r]) && Grows(h, h1)
    requires h1.blocks == h.blocks + [Fresh(h.blocks[r])] && h1.blocks[|h.blocks|].Fields().count == 1
    ensures BumpsAll(h1, h.blocks[r].captures, r, i) == Bumps(h, Blk(r), i)
    ensures CountAt(h1, i) + BumpsAll(h1, h.blocks[r].captures, r, i) < COUNT_LIMIT
  {
    BumpsAllStay(h, h1, h.blocks[r].captures, r, i);
    assert CountAt(h, i) + Bumps(h, Blk(r), i) < COUNT_LIMIT;
    if i == |h.blocks| {
      BumpsAllOld(h1, h.blocks[r].captures, r, i);
    }
  }

  lemma LiteralCounts(h: Heap, h1: Heap, h2: Heap, r: Ref, i: nat)
    requires AllSane(h) && AllSane(h1) && Ready(h, r) && Fits(h, Blk(r)) && OnStack(h.blocks[r]) && Grows(h, h1)
    requires h1.blocks == h.blocks + [Fresh(h.blocks[r])] && h1.blocks[|h.blocks|].Fields().count == 1
    requires CountsUpTo(h1, h2, i, BumpsAll(h1, h.blocks[r].captures, r, i))
    ensures CountsUpTo(h, h2, i, Bumps(h, Blk(r), i))
  {
    LiteralBumps(h, h1, r, i);
    if i >= |h.blocks| {
      BumpsAllOld(h1, h.blocks[r].captures, r, i);
    }
  }

  lemma {:induction false} CapturesFit(h: Heap, caps: seq<Capture>, r: Ref)
    requires AllSane(h) && ReadyAll(h, caps, r) && AllFit(h, caps, r) && r <= |h.blocks|
    ensures CopyCaptures(h, caps, r).CopiedAll?
    ensures forall i: nat {:trigger BumpsAll(h, caps, r, i)} ::
              CountsUpTo(h, CopyCaptures(h, caps, r).heap, i, BumpsAll(h, caps, r, i))
    decreases r, 0, |caps|
  {
    if caps != [] {
      assert caps[0] in caps;
      var b0 := if caps[0].Blk? then caps[0] else Null;
      forall i: nat ensures CountAt(h, i) + Bumps(h, b0, i) < COUNT_LIMIT {
        assert CountAt(h, i) + BumpsAll(h, caps, r, i) < COUNT_LIMIT;
      }
      var h1 := AssignFits(h, caps[0], r);
      ReadyAllKept(h, h1, caps[1..], r);
      forall i: nat ensures CountAt(h1, i) + BumpsAll(h1, caps[1..], r, i) < COUNT_LIMIT {
        NextFits(h, h1, caps, r, i);
      }
      CapturesFit(h1, caps[1..], r);
      forall i: nat ensures CountsUpTo(h, CopyCaptures(h, caps, r).heap, i, BumpsAll(h, caps, r, i)) {
        NextFits(h, h1, caps, r, i);
        assert CountsUpTo(h1, CopyCaptures(h1, caps[1..], r).heap, i, BumpsAll(h1, caps[1..], r, i));
      }
    }
  }

  lemma {:induction false} AssignFits(h: Heap, c: Capture, r: Ref) returns (h1: Heap)
    requires AllSane(h) && (c.Blk? ==> c.b < r && Ready(h, c.b) && Fits(h, c))
    ensures Assign(h, c, r).Copied? && h1 == Assign(h, c, r).heap
    ensures forall i: nat {:trigger Bumps(h, c, i)} :: CountsUpTo(h, h1, i, Bumps(h, c, i))
    decreases r, 0, 0
  {
    if c.Blk? {
      CopyFits(h, c.b);
    }
    h1 := Assign(h, c, r).heap;
  }

  lemma NextFits(h: Heap, h1: Heap, caps: seq<Capture>, r: Ref, i: nat)
    requires caps != [] && AllSane(h) && AllSane(h1) && Grows(h, h1) && ReadyAll(h, caps, r) && r <= |h.blocks|
    requires CountAt(h, i) + BumpsAll(h, caps, r, i) < COUNT_LIMIT && CountsUpTo(h, h1, i, Bumps(h, caps[0], i))
    ensures CountAt(h1, i) + BumpsAll(h1, caps[1..], r, i) < COUNT_LIMIT
    ensures BumpsAll(h1, caps[1..], r, i) == BumpsAll(h, caps[1..], r, i)
    ensures CountAt(h1, i) + BumpsAll(h1, caps[1..], r, i) <=
            if i < |h.blocks| then CountAt(h, i) + BumpsAll(h, caps, r, i) else 1
  {
    assert caps[0] in caps;
    BumpsAllStay(h, h1, caps[1..], r, i);
    if i >= |h.blocks| {
      BumpsAllOld(h1, caps[1..], r, i);
    }
  }
}
