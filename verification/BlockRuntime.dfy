/**
 The block entry points, updating flags words and the heap in place.
 */
module BlockRuntime {
  import opened Wrappers
  import opened BlockFlags
  import opened Blocks

  class Runtime {
    var blocks: seq<Block>
    var room: nat
    var retained: multiset<nat>

    ghost function Now(): Heap
      reads this
    {
      Heap(blocks, room, retained)
    }

    constructor (room: nat)
      ensures Now() == Heap([], room, multiset{}) && Counted(Now(), multiset{})
    {
      this.blocks, this.room, this.retained := [], room, multiset{};
      new;
      forall c: Capture ensures Right(Now(), 0, c) {}
    }

    /** A copy that keeps every count below the limit. */
    method BlockCopy(r: Ref) returns (result: Capture)
      requires AllSane(Now()) && Ready(Now(), r) && Copy(Now(), r).Copied?
      modifies this
      ensures Copied(Now(), result) == Copy(old(Now()), r)
      decreases r, 1
    {
      var src := blocks[r];
      if src.Fields().IsGlobal() {
        return Blk(r);
      }
      if src.Fields().NeedsFree() {
        blocks := blocks[r := src.(word := src.word + 2)];
        return Blk(r);
      }
      if room == 0 {
        return Null;
      }
      ghost var h := Now();
      var n := |blocks|;
      assert Sane(src);
      var captures := if src.Fields().HasHelpers() then [] else src.captures;
      blocks := blocks + [Block(HeapWord(src.word), captures, Live, HeapWord(src.word))];
      room := room - 1;
      if src.Fields().HasHelpers() {
        ReadyAllKept(h, Now(), src.captures, r);
        var copies := CopyHelper(src.captures, r);
        blocks := blocks[n := blocks[n].(captures := copies)];
      }
      return Blk(n);
    }

    /** The copy helper of a block literal: assigns its captured variables one by one. */
    method CopyHelper(caps: seq<Capture>, r: Ref) returns (copies: seq<Capture>)
      requires AllSane(Now()) && ReadyAll(Now(), caps, r) && CopyCaptures(Now(), caps, r).CopiedAll?
      modifies this
      ensures CopiedAll(Now(), copies) == CopyCaptures(old(Now()), caps, r)
      decreases r, 0, |caps|
    {
      if caps == [] {
        return [];
      }
      ghost var h := Now();
      var first := ObjectAssign(caps[0], r);
      ReadyAllKept(h, Now(), caps[1..], r);
      var rest := CopyHelper(caps[1..], r);
      return [first] + rest;
    }

    method ObjectAssign(c: Capture, r: Ref) returns (result: Capture)
      requires AllSane(Now()) && (c.Blk? ==> c.b < r && Ready(Now(), c.b)) && Assign(Now(), c, r).Copied?
      modifies this
      ensures Copied(Now(), result) == Assign(old(Now()), c, r)
      decreases r, 0, 0
    {
      match c
      case Obj(o) =>
        retained := retained + multiset{o};
        return c;
      case Blk(b) =>
        result := BlockCopy(b);
      case Null =>
        return c;
    }

    /** Releasing what the caller holds. */
    method BlockRelease(r: Ref)
      requires Release(Now(), r).Ok?
      modifies this
      ensures Ok(Now()) == Release(old(Now()), r)
      decreases LiveSet(Now()), 1, 0
    {
      var b := blocks[r];
      if b.Fields().IsGlobal() || !b.Fields().NeedsFree() {
        return;
      }
      ghost var h := Now();
      var oldCount := b.Fields().count;
      blocks := blocks[r := b.(word := b.word - 2)];
      if oldCount == 1 {
        blocks := blocks[r := blocks[r].(life := Disposing)];
        assert blocks == h.blocks[r := Dropped(b).(life := Disposing)];
        assert r in LiveSet(h) && r !in LiveSet(Now()) && LiveSet(Now()) <= LiveSet(h);
        if b.Fields().HasHelpers() {
          DisposeHelper(b.captures);
        }
        blocks := blocks[r := blocks[r].(life := Dead)];
        room := room + 1;
      }
    }

    /** The dispose helper of a block literal. */
    method DisposeHelper(caps: seq<Capture>)
      requires Dispose(Now(), caps).Ok?
      modifies this
      ensures Ok(Now()) == Dispose(old(Now()), caps)
      decreases LiveSet(Now()), 2, |caps|
    {
      if caps == [] {
        return;
      }
      match caps[0] {
        case Null =>
        case Obj(o) => retained := retained - multiset{o};
        case Blk(b) => BlockRelease(b);
      }
      DisposeHelper(caps[1..]);
    }
  }
}
