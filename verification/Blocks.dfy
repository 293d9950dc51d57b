/**
 Block lifetimes in the legacy runtime: copying a block literal to the heap, together with
 the blocks and objects it captures, and releasing heap blocks.  The reference count is
 kept in bits 1 to 15 of the flags word.
 */
module Blocks {
  import opened Wrappers
  import opened BlockFlags

  // ---------- the heap ----------

  type Ref = nat

  datatype Capture = Obj(o: nat) | Blk(b: Ref) | Null

  /** Outer blocks are on the stack or global.  Heap blocks live until their last release,
      which disposes of their captures and then frees them. */
  datatype Life = Outer | Live | Disposing | Dead

  /** word is the flags word, made the one that the block was created with. */
  datatype Block = Block(word: nat, captures: seq<Capture>, life: Life, made: nat) {
    function Fields(): Flags {
      Decode(word)
    }
  }

  /** room is how many more blocks fit in memory; retained are the references that blocks
      hold to objects. */
  datatype Heap = Heap(blocks: seq<Block>, room: nat, retained: multiset<nat>)

  /** Only the count bits of a heap block ever change, and the flags say where it is. */
  predicate Sane(b: Block) {
    && (b.life != Outer ==>
          SameButCount(b.word, b.made) && b.Fields().NeedsFree() && !b.Fields().IsGlobal())
    && (b.life == Outer ==> b.word == b.made && (b.Fields().IsGlobal() || !b.Fields().NeedsFree()))
    && (!b.Fields().HasHelpers() ==> forall c :: c in b.captures ==> c == Null)
  }

  ghost predicate AllSane(h: Heap) {
    forall i :: 0 <= i < |h.blocks| ==> Sane(h.blocks[i])
  }

  /** What can be copied: a live heap block, or a block literal whose captures, all older
      than itself, can be. */
  ghost predicate Ready(h: Heap, r: Ref)
    decreases r
  {
    && r < |h.blocks|
    && var b := h.blocks[r];
       b.life == Live || (b.life == Outer && forall c :: c in b.captures && c.Blk? ==> c.b < r && Ready(h, c.b))
  }

  ghost predicate ReadyAll(h: Heap, caps: seq<Capture>, r: Ref) {
    forall c :: c in caps && c.Blk? ==> c.b < r && Ready(h, c.b)
  }

  /** Copying adds blocks, each in memory of its own, and counts references; it does not
      change where a block is. */
  ghost predicate Grows(h: Heap, h': Heap) {
    && |h.blocks| <= |h'.blocks| && h'.room + |h'.blocks| == h.room + |h.blocks|
    && forall i {:trigger h'.blocks[i]} :: 0 <= i < |h.blocks| ==>
         h'.blocks[i] == h.blocks[i].(word := h'.blocks[i].word) &&
         (h.blocks[i].life == Outer ==> h'.blocks[i] == h.blocks[i])
  }

  lemma {:induction false} ReadyKept(h: Heap, h': Heap, r: Ref)
    requires Ready(h, r) && Grows(h, h')
    ensures Ready(h', r)
  {
    assert h'.blocks[r] == h.blocks[r].(word := h'.blocks[r].word);
    if h.blocks[r].life == Outer {
      forall c | c in h.blocks[r].captures && c.Blk? ensures Ready(h', c.b) {
        ReadyKept(h, h', c.b);
      }
    }
  }

  lemma ReadyAllKept(h: Heap, h': Heap, caps: seq<Capture>, r: Ref)
    requires ReadyAll(h, caps, r) && Grows(h, h')
    ensures ReadyAll(h', caps, r)
  {
    forall c | c in caps && c.Blk? ensures Ready(h', c.b) {
      ReadyKept(h, h', c.b);
    }
  }

  // ---------- copying ----------

  /** A heap and what a copy returned (null without memory), unless a count would have
      exceeded the limit. */
  datatype Copied = Copied(heap: Heap, result: Capture) | Overflow

  datatype CopiedAll = CopiedAll(heap: Heap, results: seq<Capture>) | OverflowAll

  /** One reference more: atomic_add of two. */
  function Bump(b: Block): Block {
    b.(word := b.word + 2)
  }

  lemma BumpSane(b: Block)
    requires Sane(b) && b.life == Live && b.Fields().count + 1 < COUNT_LIMIT
    ensures Sane(Bump(b)) && Bump(b).Fields().count == b.Fields().count + 1
  {
    AddTwo(b.word);
  }

  /** A heap copy whose captures are still to be assigned, if there is a helper to do so. */
  function Fresh(src: Block): Block {
    Block(HeapWord(src.word), if src.Fields().HasHelpers() then [] else src.captures, Live, HeapWord(src.word))
  }

  lemma FreshSane(src: Block)
    requires Sane(src) && !src.Fields().IsGlobal()
    ensures Sane(Fresh(src)) && Fresh(src).Fields().count == 1
    ensures Decode(Fresh(src).made).HasHelpers() <==> src.Fields().HasHelpers()
  {
    HeapWordDecodes(src.word);
  }

  lemma CapturesSane(b: Block, caps: seq<Capture>)
    requires Sane(b) && b.life == Live && Decode(b.made).HasHelpers()
    ensures Sane(b.(captures := caps))
  {
  }

  /** _Block_copy */
  ghost function Copy(h: Heap, r: Ref): (k: Copied)
    requires AllSane(h) && Ready(h, r)
    ensures k.Copied? ==> AllSane(k.heap) && Grows(h, k.heap)
    decreases r, 2
  {
    var src := h.blocks[r];
    assert Sane(src);
    if src.Fields().IsGlobal() then Copied(h, Blk(r))
    else if src.Fields().NeedsFree() then
      if src.Fields().count + 1 >= COUNT_LIMIT then Overflow
      else (BumpSane(src); Copied(h.(blocks := h.blocks[r := Bump(src)]), Blk(r)))
    else if h.room == 0 then Copied(h, Null)
    else CopyLiteral(h, r)
  }

  /** A block literal: a new heap block, then its captures. */
  ghost function CopyLiteral(h: Heap, r: Ref): (k: Copied)
    requires AllSane(h) && Ready(h, r) && h.room > 0
    requires !h.blocks[r].Fields().IsGlobal() && !h.blocks[r].Fields().NeedsFree()
    ensures k.Copied? ==> AllSane(k.heap) && Grows(h, k.heap)
    decreases r, 1
  {
    var src, n := h.blocks[r], |h.blocks|;
    var h1 := h.(blocks := h.blocks + [Fresh(src)], room := h.room - 1);
    FreshSane(src);
    if !src.Fields().HasHelpers() then Copied(h1, Blk(n))
    else
      ReadyAllKept(h, h1, src.captures, r);
      match CopyCaptures(h1, src.captures, r)
      case OverflowAll => Overflow
      case CopiedAll(h2, caps) =>
        CapturesSane(h2.blocks[n], caps);
        Copied(h2.(blocks := h2.blocks[n := h2.blocks[n].(captures := caps)]), Blk(n))
  }

  /** The copy helper: _Block_object_assign for every captured variable. */
  ghost function CopyCaptures(h: Heap, caps: seq<Capture>, r: Ref): (k: CopiedAll)
    requires AllSane(h) && ReadyAll(h, caps, r)
    ensures k.CopiedAll? ==> AllSane(k.heap) && Grows(h, k.heap)
    decreases r, 0, |caps|
  {
    if caps == [] then CopiedAll(h, [])
    else
      match Assign(h, caps[0], r)
      case Overflow => OverflowAll
      case Copied(h1, c1) =>
        ReadyAllKept(h, h1, caps[1..], r);
        match CopyCaptures(h1, caps[1..], r)
        case OverflowAll => OverflowAll
        case CopiedAll(h2, rest) => CopiedAll(h2, [c1] + rest)
  }

  ghost function Assign(h: Heap, c: Capture, r: Ref): (k: Copied)
    requires AllSane(h) && (c.Blk? ==> c.b < r && Ready(h, c.b))
    ensures k.Copied? ==> AllSane(k.heap) && Grows(h, k.heap)
    decreases r, 0, 0
  {
    match c
    case Obj(o) => Copied(h.(retained := h.retained + multiset{o}), c)
    case Blk(b) => Copy(h, b)
    case Null => Copied(h, c)
  }

  // ---------- counting references ----------

  function Occurrences(caps: seq<Capture>, c: Capture): nat {
    multiset(caps)[c]
  }

  /** The captures of c in live heap blocks. */
  function Captured(blocks: seq<Block>, c: Capture): nat {
    if blocks == [] then 0
    else
      var b := blocks[|blocks| - 1];
      Captured(blocks[..|blocks| - 1], c) + if b.life == Live then Occurrences(b.captures, c) else 0
  }

  function CapturedIn(b: Block, c: Capture): nat {
    if b.life == Live then Occurrences(b.captures, c) else 0
  }

  lemma {:induction false} CapturedUpdate(blocks: seq<Block>, i: nat, b: Block, c: Capture)
    requires i < |blocks|
    ensures Captured(blocks[i := b], c) + CapturedIn(blocks[i], c) == Captured(blocks, c) + CapturedIn(b, c)
  {
    var n := |blocks| - 1;
    if i == n {
      assert blocks[i := b][..n] == blocks[..n];
    } else {
      assert blocks[i := b][..n] == blocks[..n][i := b];
      CapturedUpdate(blocks[..n], i, b, c);
    }
  }

  lemma {:induction false} CapturedMember(blocks: seq<Block>, i: nat, c: Capture)
    requires i < |blocks|
    ensures CapturedIn(blocks[i], c) <= Captured(blocks, c)
  {
    if i < |blocks| - 1 {
      CapturedMember(blocks[..|blocks| - 1], i, c);
    }
  }

  /** The count of c is right when clients hold n references: a live block's count bits are
      its references, of which there are some; a block that is not there any more has none;
      and an object is retained as often as blocks capture it. */
  predicate Right(h: Heap, n: int, c: Capture) {
    match c
    case Null => true
    case Obj(o) => h.retained[o] == n + Captured(h.blocks, c)
    case Blk(i) =>
      if i >= |h.blocks| then n + Captured(h.blocks, c) == 0
      else if h.blocks[i].life == Outer then true
      else if h.blocks[i].life == Live then h.blocks[i].Fields().count == n + Captured(h.blocks, c) > 0
      else n + Captured(h.blocks, c) == 0
  }

  ghost predicate Counted(h: Heap, held: multiset<Capture>) {
    AllSane(h) && forall c {:trigger Right(h, held[c], c)} :: Right(h, held[c], c)
  }

  function One(k: Capture, c: Capture): nat {
    if k == c then 1 else 0
  }

  // ---------- copying counts ----------

  lemma BumpRight(h: Heap, r: Ref, n: int, c: Capture)
    requires r < |h.blocks| && h.blocks[r].life == Live && Sane(h.blocks[r]) && Right(h, n, c)
    requires h.blocks[r].Fields().count + 1 < COUNT_LIMIT
    ensures Right(h.(blocks := h.blocks[r := Bump(h.blocks[r])]), n + One(Blk(r), c), c)
  {
    BumpSane(h.blocks[r]);
    CapturedUpdate(h.blocks, r, Bump(h.blocks[r]), c);
  }

  lemma CapturesRight(h: Heap, i: nat, caps: seq<Capture>, n: int, c: Capture)
    requires i < |h.blocks| && h.blocks[i].life == Live && h.blocks[i].captures == []
    requires Right(h, n + Occurrences(caps, c), c)
    ensures Right(h.(blocks := h.blocks[i := h.blocks[i].(captures := caps)]), n, c)
  {
    CapturedUpdate(h.blocks, i, h.blocks[i].(captures := caps), c);
    assert Occurrences([], c) == 0;
  }

  /** A copy gives its caller one reference to the block it returns; everything that it
      copies or retains on the way is referenced by the new block. */
  lemma {:induction false} CopyRight(h: Heap, r: Ref, n: int, c: Capture)
    requires AllSane(h) && Ready(h, r) && Right(h, n, c) && Copy(h, r).Copied?
    ensures Right(Copy(h, r).heap, n + One(Copy(h, r).result, c), c)
    decreases r, 1
  {
    var src := h.blocks[r];
    assert Sane(src);
    if src.Fields().IsGlobal() {
      assert src.life == Outer;
    } else if src.Fields().NeedsFree() {
      BumpRight(h, r, n, c);
    } else if h.room > 0 {
      LiteralRight(h, r, n, c);
    }
  }

  lemma {:induction false} LiteralRight(h: Heap, r: Ref, n: int, c: Capture)
    requires AllSane(h) && Ready(h, r) && h.room > 0
    requires !h.blocks[r].Fields().IsGlobal() && !h.blocks[r].Fields().NeedsFree()
    requires Right(h, n, c) && CopyLiteral(h, r).Copied?
    ensures Right(CopyLiteral(h, r).heap, n + One(CopyLiteral(h, r).result, c), c)
    decreases r, 0, 1
  {
    var src, i := h.blocks[r], |h.blocks|;
    assert Sane(src);
    FreshSane(src);
    var h1 := h.(blocks := h.blocks + [Fresh(src)], room := h.room - 1);
    if src.Fields().HasHelpers() {
      ReadyAllKept(h, h1, src.captures, r);
      CopyAllRight(h1, src.captures, r, n + One(Blk(i), c), c);
      var k := CopyCaptures(h1, src.captures, r);
      assert k.heap.blocks[i].captures == [];
      CapturesRight(k.heap, i, k.results, n + One(Blk(i), c), c);
    } else {
      assert c != Null ==> c !in src.captures;
    }
  }

  lemma {:induction false} AssignRight(h: Heap, k: Capture, r: Ref, n: int, c: Capture)
    requires AllSane(h) && (k.Blk? ==> k.b < r && Ready(h, k.b)) && Right(h, n, c) && Assign(h, k, r).Copied?
    ensures Right(Assign(h, k, r).heap, n + One(Assign(h, k, r).result, c), c)
    decreases r, 0, 0, 0
  {
    match k
    case Blk(b) => CopyRight(h, b, n, c);
    case Obj(o) => assert Captured(Assign(h, k, r).heap.blocks, c) == Captured(h.blocks, c);
    case Null => assert Assign(h, k, r).heap == h;
  }

  lemma {:induction false} CopyAllRight(h: Heap, caps: seq<Capture>, r: Ref, n: int, c: Capture)
    requires AllSane(h) && ReadyAll(h, caps, r) && Right(h, n, c) && CopyCaptures(h, caps, r).CopiedAll?
    ensures var k := CopyCaptures(h, caps, r);
      Right(k.heap, n + Occurrences(k.results, c), c)
    decreases r, 0, 0, |caps|
  {
    if caps == [] {
      assert Occurrences([], c) == 0;
    } else {
      AssignRight(h, caps[0], r, n, c);
      var k0 := Assign(h, caps[0], r);
      ReadyAllKept(h, k0.heap, caps[1..], r);
      CopyAllRight(k0.heap, caps[1..], r, n + One(k0.result, c), c);
      OccurrencesFirst(k0.result, CopyCaptures(k0.heap, caps[1..], r).results, c);
    }
  }

  lemma OccurrencesFirst(k: Capture, rest: seq<Capture>, c: Capture)
    ensures Occurrences([k] + rest, c) == One(k, c) + Occurrences(rest, c)
  {
    assert multiset([k] + rest) == multiset{k} + multiset(rest);
  }

  // ---------- releasing ----------

  ghost function LiveSet(h: Heap): set<nat> {
    set i | 0 <= i < |h.blocks| && h.blocks[i].life == Live
  }

  /** Releasing only takes away: outer blocks and blocks that are gone stay as they are, and
      a live block stays live or is gone for good. */
  ghost predicate Settles(h: Heap, h': Heap) {
    && |h'.blocks| == |h.blocks| && LiveSet(h') <= LiveSet(h)
    && forall i {:trigger h'.blocks[i]} :: 0 <= i < |h.blocks| ==>
         && (h.blocks[i].life != Live ==> h'.blocks[i] == h.blocks[i])
         && (h.blocks[i].life == Live ==> h'.blocks[i].life == Live || h'.blocks[i].life == Dead)
         && h'.blocks[i].made == h.blocks[i].made && h'.blocks[i].captures == h.blocks[i].captures
  }

  datatype Outcome = Ok(heap: Heap) | Fault

  /** One reference less: atomic_sub of two. */
  function Dropped(b: Block): Block
    requires b.Fields().count > 0
  {
    SubTwo(b.word);
    b.(word := b.word - 2)
  }

  lemma DropSane(b: Block)
    requires Sane(b) && b.life == Live && b.Fields().count > 0
    ensures Sane(Dropped(b)) && Sane(Dropped(b).(life := Disposing))
    ensures Dropped(b).Fields().count == b.Fields().count - 1
  {
    SubTwo(b.word);
  }

  /** _Block_release: a fault is the use of a block that has been freed or whose count has
      run out. */
  ghost function Release(h: Heap, r: Ref): (res: Outcome)
    ensures res.Ok? ==> Settles(h, res.heap)
    decreases LiveSet(h), 1, 0
  {
    if r >= |h.blocks| || h.blocks[r].life == Dead || h.blocks[r].life == Disposing then Fault
    else
      var b := h.blocks[r];
      if b.Fields().IsGlobal() || !b.Fields().NeedsFree() then Ok(h)
      else if b.life != Live || b.Fields().count == 0 then Fault
      else if b.Fields().count > 1 then Ok(h.(blocks := h.blocks[r := Dropped(b)]))
      else
        var h1 := Opened(h, r);
        assert LiveSet(h1) <= LiveSet(h) && r in LiveSet(h) && r !in LiveSet(h1);
        match Dispose(h1, ToDispose(b))
        case Fault => Fault
        case Ok(h2) =>
          var h3 := h2.(blocks := h2.blocks[r := h2.blocks[r].(life := Dead)], room := h2.room + 1);
          assert LiveSet(h3) <= LiveSet(h2);
          Ok(h3)
  }

  /** The dispose helper: _Block_object_dispose for every captured variable. */
  ghost function Dispose(h: Heap, caps: seq<Capture>): (res: Outcome)
    ensures res.Ok? ==> Settles(h, res.heap)
    decreases LiveSet(h), 2, |caps|
  {
    if caps == [] then Ok(h)
    else
      var one := match caps[0]
        case Null => Ok(h)
        case Obj(o) => if h.retained[o] > 0 then Ok(h.(retained := h.retained - multiset{o})) else Fault
        case Blk(b) => Release(h, b);
      if one.Fault? then Fault
      else
        match Dispose(one.heap, caps[1..])
        case Fault => Fault
        case Ok(h2) => SettlesThen(h, one.heap, h2); Ok(h2)
  }

  lemma SettlesThen(h: Heap, h1: Heap, h2: Heap)
    requires Settles(h, h1) && Settles(h1, h2)
    ensures Settles(h, h2)
  {
    forall i | 0 <= i < |h.blocks|
      ensures h.blocks[i].life != Live ==> h2.blocks[i] == h.blocks[i]
      ensures h.blocks[i].life == Live ==> h2.blocks[i].life == Live || h2.blocks[i].life == Dead
      ensures h2.blocks[i].made == h.blocks[i].made && h2.blocks[i].captures == h.blocks[i].captures
    {
      assert h1.blocks[i].made == h.blocks[i].made;
    }
  }

  // ---------- releasing counts ----------

  lemma DropRight(h: Heap, r: Ref, n: nat, c: Capture)
    requires r < |h.blocks| && h.blocks[r].life == Live && Sane(h.blocks[r]) && h.blocks[r].Fields().count > 1
    requires Right(h, n + One(Blk(r), c), c)
    ensures Right(h.(blocks := h.blocks[r := Dropped(h.blocks[r])]), n, c)
  {
    DropSane(h.blocks[r]);
    CapturedUpdate(h.blocks, r, Dropped(h.blocks[r]), c);
  }

  /** At the last release the captures pass from the block to the dispose helper. */
  lemma OpenRight(h: Heap, r: Ref, n: nat, c: Capture)
    requires r < |h.blocks| && h.blocks[r].life == Live && Sane(h.blocks[r]) && h.blocks[r].Fields().count == 1
    requires Right(h, n + One(Blk(r), c), c)
    ensures Right(Opened(h, r), n + Occurrences(h.blocks[r].captures, c), c)
  {
    DropSane(h.blocks[r]);
    CapturedUpdate(h.blocks, r, Dropped(h.blocks[r]).(life := Disposing), c);
    CapturedMember(h.blocks, r, c);
  }

  /** before is held and one more reference to k. */
  ghost predicate OneMore(before: multiset<Capture>, held: multiset<Capture>, k: Capture) {
    forall c {:trigger before[c]} {:trigger held[c]} :: before[c] == held[c] + One(k, c)
  }

  ghost predicate Plus(before: multiset<Capture>, held: multiset<Capture>, caps: seq<Capture>) {
    forall c {:trigger before[c]} {:trigger held[c]} :: before[c] == held[c] + Occurrences(caps, c)
  }

  lemma RightAt(h: Heap, held: multiset<Capture>, c: Capture)
    requires Counted(h, held)
    ensures Right(h, held[c], c)
  {
  }

  /** Releasing a block that is held: nothing that has been freed is used, and every count
      is right afterwards.  In particular a block is disposed of and freed when its last
      reference goes, and not before. */
  lemma {:induction false} ReleaseCounted(h: Heap, before: multiset<Capture>, held: multiset<Capture>, r: Ref)
    requires Counted(h, before) && OneMore(before, held, Blk(r))
    ensures Release(h, r).Ok? && Counted(Release(h, r).heap, held)
    decreases LiveSet(h), 1, 0
  {
    RightAt(h, before, Blk(r));
    assert before[Blk(r)] == held[Blk(r)] + 1;
    var b := h.blocks[r];
    assert Sane(b);
    if b.life == Outer {
      forall c ensures Right(h, held[c], c) {
        assert before[c] == held[c] + One(Blk(r), c) && Right(h, before[c], c);
      }
    } else if b.Fields().count > 1 {
      DropSane(b);
      forall c ensures Right(Release(h, r).heap, held[c], c) {
        assert before[c] == held[c] + One(Blk(r), c) && Right(h, before[c], c);
        DropRight(h, r, held[c], c);
      }
    } else {
      LastRelease(h, before, held, r);
    }
  }

  lemma {:induction false} LastRelease(h: Heap, before: multiset<Capture>, held: multiset<Capture>, r: Ref)
    requires Counted(h, before) && OneMore(before, held, Blk(r)) && r < |h.blocks| && h.blocks[r].life == Live
    requires h.blocks[r].Fields().count == 1
    ensures Release(h, r).Ok? && Counted(Release(h, r).heap, held)
    decreases LiveSet(h), 0, 0
  {
    var between := OpenedCounted(h, before, held, r);
    var h1, caps := Opened(h, r), ToDispose(h.blocks[r]);
    DisposeCounted(h1, between, held, caps);
    var h2 := Dispose(h1, caps).heap;
    LastReleaseRuns(h, r, h2);
    CloseRight(h2, held, r);
  }

  /** The heap after the last release of a block, before its captures are disposed of. */
  ghost function Opened(h: Heap, r: Ref): Heap
    requires r < |h.blocks| && h.blocks[r].Fields().count > 0
  {
    h.(blocks := h.blocks[r := Dropped(h.blocks[r]).(life := Disposing)])
  }

  function ToDispose(b: Block): seq<Capture> {
    if b.Fields().HasHelpers() then b.captures else []
  }

  lemma OpenedCounted(h: Heap, before: multiset<Capture>, held: multiset<Capture>, r: Ref)
    returns (between: multiset<Capture>)
    requires Counted(h, before) && OneMore(before, held, Blk(r)) && r < |h.blocks| && h.blocks[r].life == Live
    requires h.blocks[r].Fields().count == 1
    ensures Counted(Opened(h, r), between) && Plus(between, held, ToDispose(h.blocks[r]))
    ensures LiveSet(Opened(h, r)) < LiveSet(h)
  {
    var b := h.blocks[r];
    assert Sane(b);
    between := OpenCounted(h, before, held, r);
    assert r in LiveSet(h) && r !in LiveSet(Opened(h, r)) && LiveSet(Opened(h, r)) <= LiveSet(h);
    if !b.Fields().HasHelpers() {
      NullsOnly(Opened(h, r), between, held, b.captures);
      between := held;
    }
  }

  /** What the last release does when the dispose helper comes back. */
  lemma LastReleaseRuns(h: Heap, r: Ref, h2: Heap)
    requires r < |h.blocks| && h.blocks[r].life == Live && Sane(h.blocks[r]) && h.blocks[r].Fields().count == 1
    requires Dispose(Opened(h, r), ToDispose(h.blocks[r])) == Ok(h2)
    ensures |h2.blocks| == |h.blocks| && h2.blocks[r].life == Disposing
    ensures Release(h, r) == Ok(h2.(blocks := h2.blocks[r := h2.blocks[r].(life := Dead)], room := h2.room + 1))
  {
    assert h2.blocks[r] == Opened(h, r).blocks[r];
  }

  lemma OpenCounted(h: Heap, before: multiset<Capture>, held: multiset<Capture>, r: Ref)
    returns (between: multiset<Capture>)
    requires Counted(h, before) && OneMore(before, held, Blk(r)) && r < |h.blocks| && h.blocks[r].life == Live
    requires h.blocks[r].Fields().count == 1
    ensures Counted(Opened(h, r), between) && Plus(between, held, h.blocks[r].captures)
  {
    var b := h.blocks[r];
    assert Sane(b);
    DropSane(b);
    between := held + multiset(b.captures);
    forall c ensures Right(Opened(h, r), between[c], c) && between[c] == held[c] + Occurrences(b.captures, c) {
      assert before[c] == held[c] + One(Blk(r), c) && Right(h, before[c], c);
      OpenRight(h, r, held[c], c);
    }
  }

  /** Without helpers there is nothing to dispose of. */
  lemma NullsOnly(h: Heap, between: multiset<Capture>, held: multiset<Capture>, caps: seq<Capture>)
    requires Counted(h, between) && Plus(between, held, caps) && forall c :: c in caps ==> c == Null
    ensures Counted(h, held)
  {
    forall c ensures Right(h, held[c], c) {
      assert Right(h, between[c], c) && between[c] == held[c] + Occurrences(caps, c);
      assert c != Null ==> c !in caps;
    }
  }

  lemma CloseRight(h: Heap, held: multiset<Capture>, r: Ref)
    requires Counted(h, held) && r < |h.blocks| && h.blocks[r].life == Disposing
    ensures Counted(h.(blocks := h.blocks[r := h.blocks[r].(life := Dead)], room := h.room + 1), held)
  {
    var h' := h.(blocks := h.blocks[r := h.blocks[r].(life := Dead)], room := h.room + 1);
    assert Sane(h.blocks[r]);
    forall c ensures Right(h', held[c], c) {
      RightAt(h, held, c);
      CapturedUpdate(h.blocks, r, h.blocks[r].(life := Dead), c);
    }
  }

  lemma {:induction false} DisposeCounted(h: Heap, before: multiset<Capture>, held: multiset<Capture>,
                                          caps: seq<Capture>)
    requires Counted(h, before) && Plus(before, held, caps)
    ensures Dispose(h, caps).Ok? && Counted(Dispose(h, caps).heap, held)
    decreases LiveSet(h), 2, |caps|
  {
    if caps == [] {
      forall c ensures Right(h, held[c], c) {
        assert before[c] == held[c] + Occurrences([], c) && Right(h, before[c], c);
      }
    } else {
      var mid := before - multiset{caps[0]};
      assert caps == [caps[0]] + caps[1..];
      forall c ensures before[c] == mid[c] + One(caps[0], c) && mid[c] == held[c] + Occurrences(caps[1..], c) {
        OccurrencesFirst(caps[0], caps[1..], c);
        OccurrencesFirst(caps[0], caps[1..], caps[0]);
        assert before[c] == held[c] + Occurrences(caps, c);
        assert before[caps[0]] == held[caps[0]] + Occurrences(caps, caps[0]);
      }
      var h1 := DisposeOne(h, before, mid, caps[0]);
      DisposeCounted(h1, mid, held, caps[1..]);
    }
  }

  /** The dispose helper on one captured variable. */
  lemma {:induction false} DisposeOne(h: Heap, before: multiset<Capture>, mid: multiset<Capture>, k: Capture)
    returns (h1: Heap)
    requires Counted(h, before) && OneMore(before, mid, k)
    ensures Counted(h1, mid) && LiveSet(h1) <= LiveSet(h)
    ensures match k
      case Null => h1 == h
      case Obj(o) => h.retained[o] > 0 && h1 == h.(retained := h.retained - multiset{o})
      case Blk(b) => Release(h, b) == Ok(h1)
    decreases LiveSet(h), 1, 1
  {
    match k
    case Blk(b) =>
      ReleaseCounted(h, before, mid, b);
      h1 := Release(h, b).heap;
    case Obj(o) =>
      assert before[k] == mid[k] + 1 && Right(h, before[k], k);
      h1 := h.(retained := h.retained - multiset{o});
      forall c ensures Right(h1, mid[c], c) {
        assert before[c] == mid[c] + One(k, c) && Right(h, before[c], c);
      }
    case Null =>
      h1 := h;
      forall c ensures Right(h1, mid[c], c) {
        assert before[c] == mid[c] + One(k, c) && Right(h, before[c], c);
      }
  }

  // ---------- whole runs ----------

  /** A program evaluates block literals, copies what it can refer to, and releases what it
      holds; it may release a global block or a literal at any time. */
  datatype Step = Literal(word: nat, captures: seq<Capture>) | Copying(r: Ref) | Releasing(r: Ref)

  /** held are the references that the program holds. */
  datatype Program = Program(heap: Heap, held: multiset<Capture>)

  ghost predicate Consistent(p: Program) {
    Counted(p.heap, p.held)
  }

  ghost predicate Legal(p: Program, s: Step)
    requires AllSane(p.heap)
  {
    match s
    case Literal(word, captures) =>
      && (Decode(word).IsGlobal() || !Decode(word).NeedsFree())
      && (!Decode(word).HasHelpers() ==> forall c :: c in captures ==> c == Null)
    case Copying(r) => Ready(p.heap, r) && Copy(p.heap, r).Copied?
    case Releasing(r) => p.held[Blk(r)] > 0 || (r < |p.heap.blocks| && p.heap.blocks[r].life == Outer)
  }

  ghost function Take(p: Program, s: Step): Option<Program>
    requires AllSane(p.heap) && Legal(p, s)
  {
    match s
    case Literal(word, captures) =>
      Some(p.(heap := p.heap.(blocks := p.heap.blocks + [Block(word, captures, Outer, word)])))
    case Copying(r) =>
      var k := Copy(p.heap, r);
      Some(Program(k.heap, p.held + multiset{k.result}))
    case Releasing(r) =>
      match Release(p.heap, r)
      case Fault => None
      case Ok(h) => Some(Program(h, p.held - multiset{Blk(r)}))
  }

  lemma StepCounted(p: Program, s: Step)
    requires Consistent(p) && Legal(p, s)
    ensures Take(p, s).Some? && Consistent(Take(p, s).value)
  {
    match s
    case Literal(word, captures) =>
      var b := Block(word, captures, Outer, word);
      var h := p.heap.(blocks := p.heap.blocks + [b]);
      forall c ensures Right(h, p.held[c], c) {
        RightAt(p.heap, p.held, c);
        assert (p.heap.blocks + [b])[..|p.heap.blocks|] == p.heap.blocks;
      }
    case Copying(r) =>
      var k := Copy(p.heap, r);
      var held := p.held + multiset{k.result};
      forall c ensures Right(k.heap, held[c], c) {
        RightAt(p.heap, p.held, c);
        CopyRight(p.heap, r, p.held[c], c);
        assert held[c] == p.held[c] + One(k.result, c);
      }
    case Releasing(r) =>
      if p.held[Blk(r)] > 0 {
        ReleaseCounted(p.heap, p.held, p.held - multiset{Blk(r)}, r);
      } else {
        assert Sane(p.heap.blocks[r]) && p.held - multiset{Blk(r)} == p.held;
      }
  }

  /** A run: steps that are legal when their turn comes; None after the use of a block that
      has been freed. */
  ghost function Run(p: Program, steps: seq<Step>): Option<Program>
    requires AllSane(p.heap)
    decreases |steps|
  {
    if steps == [] then Some(p)
    else if !Legal(p, steps[0]) then Run(p, steps[1..])
    else
      var q := Take(p, steps[0]);
      if q.None? || !AllSane(q.value.heap) then None else Run(q.value, steps[1..])
  }

  /** Over any run of copies and releases, in any order, that stays below 32768 references
      to a block: no freed block is used, bits 1 to 15 of every live block are the number of
      references to it, its other bits are as they were made, and it is freed exactly when
      no reference is left. */
  lemma {:induction false} EveryRun(p: Program, steps: seq<Step>)
    requires Consistent(p)
    ensures Run(p, steps).Some? && Consistent(Run(p, steps).value)
    decreases |steps|
  {
    if steps != [] {
      if Legal(p, steps[0]) {
        StepCounted(p, steps[0]);
        EveryRun(Take(p, steps[0]).value, steps[1..]);
      } else {
        EveryRun(p, steps[1..]);
      }
    }
  }

  /** What consistency says about the flags word of one heap block: bits 1 to 15 are its
      references, and the upper half and bit 0 are as they were made. */
  lemma BlockCount(p: Program, i: nat)
    requires Consistent(p) && i < |p.heap.blocks| && p.heap.blocks[i].life != Outer
    ensures var b := p.heap.blocks[i]; var refs := p.held[Blk(i)] + Captured(p.heap.blocks, Blk(i));
      && (b.life == Live <==> refs > 0)
      && b.word / 65536 == b.made / 65536 && b.word % 2 == b.made % 2
      && (b.life == Live ==> b.word / 2 % 32768 == refs)
  {
    RightAt(p.heap, p.held, Blk(i));
    assert Sane(p.heap.blocks[i]);
    Parts(p.heap.blocks[i].word);
    Parts(p.heap.blocks[i].made);
  }
}
