/**
 The emitted retain, release and dealloc functions, updating the heap in place.
 */
module ManagedHeap {
  import opened ObjectHeap

  class Memory {
    var cells: Heap

    constructor (cells: Heap)
      ensures this.cells == cells
    {
      this.cells := cells;
    }

    /** The root class's retain. */
    method RetainObject(self: Ref) returns (ok: bool)
      modifies this
      ensures ok <==> Retain(old(cells), self).Ok?
      ensures ok ==> cells == Retain(old(cells), self).heap
    {
      if self.Nil? {
        return true;
      }
      if self.id >= |cells| || cells[self.id].status.Freed? {
        return false;
      }
      cells := cells[self.id := cells[self.id].(rc := cells[self.id].rc + 1)];
      return true;
    }

    /** The root class's release: the last reference sends dealloc to the object. */
    method ReleaseObject(self: Ref) returns (ok: bool)
      modifies this
      ensures ok <==> Release(old(cells), self).Ok?
      ensures ok ==> cells == Release(old(cells), self).heap
      decreases ActiveSet(cells), 0, 0
    {
      if self.Nil? {
        return true;
      }
      var id := self.id;
      if id >= |cells| || cells[id].status.Freed? {
        return false;
      }
      if cells[id].immortal {
        return true;
      }
      ghost var h := cells;
      cells := cells[id := cells[id].(rc := cells[id].rc - 1)];
      if cells[id].rc == 0 {
        if cells[id].status.Deallocating? {
          return true;
        }
        cells := cells[id := cells[id].(status := Deallocating)];
        assert id in ActiveSet(h) && id !in ActiveSet(cells) && ActiveSet(cells) <= ActiveSet(h);
        assert cells == h[id := h[id].(rc := h[id].rc - 1, status := Deallocating)];
        ok := Dealloc(id, cells[id].cls, 0);
        return;
      }
      return true;
    }

    /** The dealloc function emitted for a class: releases its own strong ivars, then calls
        the superclass's, or at the root returns the memory. */
    method Dealloc(id: nat, cls: Class, base: nat) returns (ok: bool)
      modifies this
      ensures ok <==> RunDealloc(old(cells), id, cls, base, 0).Ok?
      ensures ok ==> cells == RunDealloc(old(cells), id, cls, base, 0).heap
      decreases ActiveSet(cells), 1 + Depth(cls)
    {
      ghost var h := cells;
      for k := 0 to |cls.own|
        invariant RunDealloc(h, id, cls, base, 0) == RunDealloc(cells, id, cls, base, k)
        invariant ActiveSet(cells) <= ActiveSet(h)
      {
        if id >= |cells| || cells[id].status.Freed? || base + k >= |cells[id].fields| {
          RunOwnFault(cells, id, cls, base, k);
          return false;
        }
        ghost var before := cells;
        ok := ReleaseObject(cells[id].fields[base + k]);
        if !ok {
          RunOwnFault(before, id, cls, base, k);
          return false;
        }
        RunOwn(before, id, cls, base, k, cells);
        assert ActiveSet(cells) <= ActiveSet(before);
      }
      if id >= |cells| || cells[id].status.Freed? {
        return false;
      }
      if cls.Sub? {
        RunSuper(cells, id, cls, base);
        ok := Dealloc(id, cls.parent, base + |cls.own|);
      } else {
        RunFree(cells, id, cls, base);
        cells := cells[id := cells[id].(status := Freed)];
        ok := true;
      }
    }
  }
}
