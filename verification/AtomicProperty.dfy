/**
 The atomic property accessors as a protocol: any number of threads get and set any number
 of properties, one atomic action at a time, under one lock, while references outside
 come and go and the autorelease pool is drained.
 */
module AtomicProperty {
  import opened Wrappers

  type Ref = nat

  datatype Life = Alive | Dying | Freed

  /** An object: its reference count, and whether it is live, has dropped to zero, or has
      been freed.  Immortal objects are not counted. */
  datatype Obj = Obj(count: nat, life: Life, immortal: bool)

  /** Where a thread is in an accessor.  Those marked * hold the lock. */
  datatype Thread =
    | Idle
    | GetEnter(slot: nat)                                        // about to lock
    | GetLocked(slot: nat)                                       // * about to read
    | GetRead(slot: nat, val: Option<Ref>)                       // * about to retain
    | GetRetained(val: Option<Ref>)                              // * about to unlock
    | GetLeave(val: Option<Ref>)                                 // about to autorelease
    | SetEnter(slot: nat, val: Option<Ref>)                      // about to retain
    | SetRetained(slot: nat, val: Option<Ref>)                   // about to lock
    | SetLocked(slot: nat, val: Option<Ref>)                     // * about to read
    | SetRead(slot: nat, val: Option<Ref>, displaced: Option<Ref>) // * about to write
    | SetWritten(displaced: Option<Ref>)                         // * about to unlock
    | SetLeave(displaced: Option<Ref>)                           // about to release

  /** displaced and dropped record the values that setters have taken out of a slot, and
      those that they have released since. */
  datatype State = State(
    objs: seq<Obj>,
    slots: seq<Option<Ref>>,
    threads: seq<Thread>,
    lock: Option<nat>,
    pool: multiset<Ref>,
    outside: multiset<Ref>,
    displaced: multiset<Ref>,
    dropped: multiset<Ref>)

  datatype Step =
    | BeginGet(t: nat, slot: nat)
    | BeginSet(t: nat, slot: nat, val: Option<Ref>)
    | Go(t: nat)
    | Retain(r: Ref)
    | Release(r: Ref)
    | Drain(r: Ref)
    | Dealloc(r: Ref)
    | Alloc(immortal: bool)

  datatype Outcome = Next(state: State) | Blocked | Fault

  // ---------- atomic actions on counts ----------

  predicate Usable(objs: seq<Obj>, r: Ref) {
    r < |objs| && objs[r].life == Alive
  }

  function Inc(objs: seq<Obj>, r: Ref): (objs': seq<Obj>)
    requires r < |objs|
    ensures |objs'| == |objs| && forall x :: 0 <= x < |objs| ==> objs'[x].immortal == objs[x].immortal
  {
    if objs[r].immortal then objs else objs[r := objs[r].(count := objs[r].count + 1)]
  }

  /** The object dies with the decrement that finds a count of one. */
  function Dec(objs: seq<Obj>, r: Ref): (objs': seq<Obj>)
    requires r < |objs|
    ensures |objs'| == |objs| && forall x :: 0 <= x < |objs| ==> objs'[x].immortal == objs[x].immortal
  {
    if objs[r].immortal || objs[r].count == 0 then objs
    else objs[r := objs[r].(count := objs[r].count - 1, life := if objs[r].count == 1 then Dying else objs[r].life)]
  }

  // ---------- steps ----------

  /** A caller keeps the argument of a setter referenced until the setter has retained it. */
  ghost predicate Pinned(s: State, r: Ref) {
    exists t :: 0 <= t < |s.threads| && s.threads[t].SetEnter? && s.threads[t].val == Some(r)
  }

  function Handles(s: State, r: Ref): nat {
    s.pool[r] + s.outside[r]
  }

  /** Whether the program outside the accessors may drop a reference to r. */
  ghost predicate MayDrop(s: State, r: Ref) {
    Handles(s, r) >= 2 || !Pinned(s, r)
  }

  /** Whether the program has r in hand: immortal objects always are. */
  predicate InHand(s: State, r: Ref) {
    r < |s.objs| && (s.objs[r].immortal || Handles(s, r) > 0)
  }

  ghost function Do(s: State, step: Step): Outcome {
    match step
    case BeginGet(t, slot) =>
      if t < |s.threads| && s.threads[t].Idle? && slot < |s.slots| then Next(Becomes(s, t, GetEnter(slot))) else Blocked
    case BeginSet(t, slot, val) =>
      if t < |s.threads| && s.threads[t].Idle? && slot < |s.slots| && (val.Some? ==> InHand(s, val.value))
      then Next(Becomes(s, t, SetEnter(slot, val)))
      else Blocked
    case Go(t) => if t < |s.threads| then Proceed(s, t) else Blocked
    case Retain(r) =>
      if !InHand(s, r) then Blocked
      else if !Usable(s.objs, r) then Fault
      else Next(s.(objs := Inc(s.objs, r), outside := s.outside + multiset{r}))
    case Release(r) =>
      if s.outside[r] == 0 || !MayDrop(s, r) then Blocked
      else if !Usable(s.objs, r) then Fault
      else Next(s.(objs := Dec(s.objs, r), outside := s.outside - multiset{r}))
    case Drain(r) =>
      if s.pool[r] == 0 || !MayDrop(s, r) then Blocked
      else if !Usable(s.objs, r) then Fault
      else Next(s.(objs := Dec(s.objs, r), pool := s.pool - multiset{r}))
    case Dealloc(r) =>
      if r < |s.objs| && s.objs[r].life == Dying
      then Next(s.(objs := s.objs[r := s.objs[r].(life := Freed)]))
      else Blocked
    case Alloc(immortal) =>
      Next(s.(objs := s.objs + [Obj(if immortal then 0 else 1, Alive, immortal)],
              outside := if immortal then s.outside else s.outside + multiset{|s.objs|}))
  }

  function Becomes(s: State, t: nat, th: Thread): State
    requires t < |s.threads|
  {
    s.(threads := s.threads[t := th])
  }

  /** The next atomic action of a thread inside an accessor. */
  function Proceed(s: State, t: nat): Outcome
    requires t < |s.threads|
  {
    match s.threads[t]
    case Idle => Blocked
    case GetEnter(slot) => if s.lock.None? then Next(Becomes(s, t, GetLocked(slot)).(lock := Some(t))) else Blocked
    case GetLocked(slot) => if slot < |s.slots| then Next(Becomes(s, t, GetRead(slot, s.slots[slot]))) else Fault
    case GetRead(_, val) =>
      if val.None? then Next(Becomes(s, t, GetRetained(val)))
      else if !Usable(s.objs, val.value) then Fault
      else Next(Becomes(s, t, GetRetained(val)).(objs := Inc(s.objs, val.value)))
    case GetRetained(val) => Next(Becomes(s, t, GetLeave(val)).(lock := None))
    case GetLeave(val) =>
      if val.None? then Next(Becomes(s, t, Idle))
      else Next(Becomes(s, t, Idle).(pool := s.pool + multiset{val.value}))
    case SetEnter(slot, val) =>
      if val.None? then Next(Becomes(s, t, SetRetained(slot, val)))
      else if !Usable(s.objs, val.value) then Fault
      else Next(Becomes(s, t, SetRetained(slot, val)).(objs := Inc(s.objs, val.value)))
    case SetRetained(slot, val) =>
      if s.lock.None? then Next(Becomes(s, t, SetLocked(slot, val)).(lock := Some(t))) else Blocked
    case SetLocked(slot, val) =>
      if slot < |s.slots| then Next(Becomes(s, t, SetRead(slot, val, s.slots[slot]))) else Fault
    case SetRead(slot, val, displaced) =>
      if slot < |s.slots|
      then Next(Becomes(s, t, SetWritten(displaced)).(slots := s.slots[slot := val],
                                                      displaced := s.displaced + Bag(displaced)))
      else Fault
    case SetWritten(displaced) => Next(Becomes(s, t, SetLeave(displaced)).(lock := None))
    case SetLeave(displaced) =>
      if displaced.None? then Next(Becomes(s, t, Idle))
      else if !Usable(s.objs, displaced.value) then Fault
      else Next(Becomes(s, t, Idle).(objs := Dec(s.objs, displaced.value), dropped := s.dropped + Bag(displaced)))
  }

  function Bag(o: Option<Ref>): multiset<Ref> {
    if o.None? then multiset{} else multiset{o.value}
  }

  // ---------- counting references ----------

  datatype Kind = Owned | Pending

  /** A getter owns what it has retained until it hands it to the pool; a setter owns the
      new value until it is in the slot, and from then on the displaced one. */
  function Holds(th: Thread, kind: Kind, r: Ref): nat {
    match th
    case GetRetained(val) => if kind == Owned && val == Some(r) then 1 else 0
    case GetLeave(val) => if kind == Owned && val == Some(r) then 1 else 0
    case SetRetained(_, val) => if kind == Owned && val == Some(r) then 1 else 0
    case SetLocked(_, val) => if kind == Owned && val == Some(r) then 1 else 0
    case SetRead(_, val, _) => if kind == Owned && val == Some(r) then 1 else 0
    case SetWritten(displaced) => if displaced == Some(r) then 1 else 0
    case SetLeave(displaced) => if displaced == Some(r) then 1 else 0
    case _ => 0
  }

  function ThreadRefs(ts: seq<Thread>, kind: Kind, r: Ref): nat {
    if ts == [] then 0 else ThreadRefs(ts[..|ts| - 1], kind, r) + Holds(ts[|ts| - 1], kind, r)
  }

  function SlotRefs(slots: seq<Option<Ref>>, r: Ref): nat {
    if slots == [] then 0
    else SlotRefs(slots[..|slots| - 1], r) + if slots[|slots| - 1] == Some(r) then 1 else 0
  }

  lemma {:induction false} ThreadMoves(ts: seq<Thread>, kind: Kind, r: Ref, t: nat, th: Thread)
    requires t < |ts|
    ensures ThreadRefs(ts[t := th], kind, r) + Holds(ts[t], kind, r) == ThreadRefs(ts, kind, r) + Holds(th, kind, r)
  {
    var n := |ts| - 1;
    if t == n {
      assert ts[t := th][..n] == ts[..n];
    } else {
      assert ts[t := th][..n] == ts[..n][t := th];
      ThreadMoves(ts[..n], kind, r, t, th);
    }
  }

  lemma {:induction false} SlotWritten(slots: seq<Option<Ref>>, r: Ref, i: nat, v: Option<Ref>)
    requires i < |slots|
    ensures SlotRefs(slots[i := v], r) + (if slots[i] == Some(r) then 1 else 0) ==
            SlotRefs(slots, r) + (if v == Some(r) then 1 else 0)
  {
    var n := |slots| - 1;
    if i == n {
      assert slots[i := v][..n] == slots[..n];
    } else {
      assert slots[i := v][..n] == slots[..n][i := v];
      SlotWritten(slots[..n], r, i, v);
    }
  }

  lemma {:induction false} SlotCounts(slots: seq<Option<Ref>>, i: nat, r: Ref)
    requires i < |slots| && slots[i] == Some(r)
    ensures SlotRefs(slots, r) > 0
  {
    if i < |slots| - 1 {
      SlotCounts(slots[..|slots| - 1], i, r);
    }
  }

  lemma {:induction false} ThreadCounts(ts: seq<Thread>, t: nat, kind: Kind, r: Ref)
    requires t < |ts| && Holds(ts[t], kind, r) > 0
    ensures ThreadRefs(ts, kind, r) > 0
  {
    if t < |ts| - 1 {
      ThreadCounts(ts[..|ts| - 1], t, kind, r);
    }
  }

  // ---------- the invariant ----------

  /** All references to r: in slots, in accessors under way, in the pool, and outside. */
  function References(s: State, r: Ref): nat {
    SlotRefs(s.slots, r) + ThreadRefs(s.threads, Owned, r) + s.pool[r] + s.outside[r]
  }

  predicate CountRight(s: State, r: Ref) {
    if r >= |s.objs| then References(s, r) == 0
    else if s.objs[r].immortal then s.objs[r].life == Alive
    else s.objs[r].count == References(s, r) && (s.objs[r].life == Alive <==> s.objs[r].count > 0)
  }

  ghost predicate CountsRight(s: State) {
    forall r: Ref {:trigger CountRight(s, r)} :: CountRight(s, r)
  }

  predicate Locked(th: Thread) {
    th.GetLocked? || th.GetRead? || th.GetRetained? || th.SetLocked? || th.SetRead? || th.SetWritten?
  }

  /** Exactly the holder of the lock is past its locking, and what it has read is still
      in the slot. */
  ghost predicate ThreadRight(s: State, t: nat)
    requires t < |s.threads|
  {
    var th := s.threads[t];
    && (Locked(th) <==> s.lock == Some(t))
    && ((th.GetLocked? || th.SetLocked? || th.SetRetained? || th.SetEnter? || th.GetEnter?) ==> th.slot < |s.slots|)
    && (th.GetRead? ==> th.slot < |s.slots| && s.slots[th.slot] == th.val)
    && (th.SetRead? ==> th.slot < |s.slots| && s.slots[th.slot] == th.displaced)
    && (th.SetEnter? && th.val.Some? ==> InHand(s, th.val.value))
  }

  ghost predicate ThreadsRight(s: State) {
    && (s.lock.Some? ==> s.lock.value < |s.threads|)
    && forall t {:trigger ThreadRight(s, t)} :: 0 <= t < |s.threads| ==> ThreadRight(s, t)
  }

  /** Every displaced value has been released, or is about to be by the setter that took
      it out. */
  ghost predicate DisplacedOnce(s: State) {
    forall r: Ref {:trigger s.displaced[r]} :: s.displaced[r] == s.dropped[r] + ThreadRefs(s.threads, Pending, r)
  }

  ghost predicate Inv(s: State) {
    CountsRight(s) && ThreadsRight(s) && DisplacedOnce(s)
  }

  // ---------- what the invariant means ----------

  /** The object in a slot is alive, whatever the threads are doing. */
  lemma SlotAlive(s: State, i: nat)
    requires Inv(s) && i < |s.slots| && s.slots[i].Some?
    ensures Usable(s.objs, s.slots[i].value)
  {
    SlotCounts(s.slots, i, s.slots[i].value);
    assert CountRight(s, s.slots[i].value);
  }

  /** No step ever retains or releases a dead object. */
  lemma NeverFaults(s: State, step: Step)
    requires Inv(s)
    ensures Do(s, step) != Fault
  {
    match step
    case Go(t) =>
      if t < |s.threads| {
        ProceedSafe(s, t);
      }
    case Retain(r) => assert CountRight(s, r);
    case Release(r) => assert CountRight(s, r);
    case Drain(r) => assert CountRight(s, r);
    case _ =>
  }

  lemma ProceedSafe(s: State, t: nat)
    requires Inv(s) && t < |s.threads|
    ensures Proceed(s, t) != Fault
  {
    assert ThreadRight(s, t);
    match s.threads[t]
    case GetRead(slot, val) =>
      if val.Some? {
        SlotAlive(s, slot);
      }
    case SetEnter(slot, val) =>
      if val.Some? {
        assert CountRight(s, val.value);
      }
    case SetLeave(displaced) =>
      if displaced.Some? {
        ThreadCounts(s.threads, t, Owned, displaced.value);
        assert CountRight(s, displaced.value);
      }
    case _ =>
  }

  // ---------- every step keeps the invariant ----------

  /** The two equations for one object. */
  predicate Balanced(s: State, r: Ref) {
    CountRight(s, r) && s.displaced[r] == s.dropped[r] + ThreadRefs(s.threads, Pending, r)
  }

  /** Actions that move no reference. */
  predicate Quiet(th: Thread) {
    th.GetEnter? || th.GetLocked? || th.GetRetained? || th.SetRetained? || th.SetLocked? || th.SetWritten?
  }

  lemma QuietBalanced(s: State, t: nat, r: Ref)
    requires t < |s.threads| && Quiet(s.threads[t]) && Proceed(s, t).Next? && Balanced(s, r)
    ensures Balanced(Proceed(s, t).state, r)
  {
    var s' := Proceed(s, t).state;
    var th := s'.threads[t];
    ThreadMoves(s.threads, Owned, r, t, th);
    ThreadMoves(s.threads, Pending, r, t, th);
    assert s' == Becomes(s, t, th).(lock := s'.lock);
  }

  lemma RetainBalanced(s: State, t: nat, r: Ref)
    requires t < |s.threads| && (s.threads[t].GetRead? || s.threads[t].SetEnter?)
    requires Proceed(s, t).Next? && Balanced(s, r)
    ensures Balanced(Proceed(s, t).state, r)
  {
    var s' := Proceed(s, t).state;
    var th := s'.threads[t];
    ThreadMoves(s.threads, Owned, r, t, th);
    ThreadMoves(s.threads, Pending, r, t, th);
    assert s' == Becomes(s, t, th).(objs := s'.objs);
    assert Holds(th, Owned, r) == if th.val == Some(r) then 1 else 0;
    if th.val.Some? {
      IncCounts(s.objs, th.val.value, r);
    }
  }

  lemma IncCounts(objs: seq<Obj>, x: Ref, r: Ref)
    requires Usable(objs, x)
    ensures r < |objs| ==>
              Inc(objs, x)[r] ==
              (if x == r && !objs[r].immortal then objs[r].(count := objs[r].count + 1) else objs[r])
  {
  }

  lemma HandOverBalanced(s: State, t: nat, r: Ref)
    requires t < |s.threads| && s.threads[t].GetLeave? && Proceed(s, t).Next? && Balanced(s, r)
    ensures Balanced(Proceed(s, t).state, r)
  {
    var s' := Proceed(s, t).state;
    ThreadMoves(s.threads, Owned, r, t, Idle);
    ThreadMoves(s.threads, Pending, r, t, Idle);
    assert s' == Becomes(s, t, Idle).(pool := s'.pool);
    assert s'.pool[r] == s.pool[r] + if s.threads[t].val == Some(r) then 1 else 0;
  }

  lemma SwapBalanced(s: State, t: nat, r: Ref)
    requires t < |s.threads| && s.threads[t].SetRead? && Proceed(s, t).Next? && Balanced(s, r)
    requires s.slots[s.threads[t].slot] == s.threads[t].displaced
    ensures Balanced(Proceed(s, t).state, r)
  {
    var s' := Proceed(s, t).state;
    var th := s'.threads[t];
    ThreadMoves(s.threads, Owned, r, t, th);
    ThreadMoves(s.threads, Pending, r, t, th);
    SlotWritten(s.slots, r, s.threads[t].slot, s.threads[t].val);
    assert s'.displaced[r] == s.displaced[r] + Bag(s.threads[t].displaced)[r];
    assert s' == Becomes(s, t, th).(slots := s'.slots, displaced := s'.displaced);
  }

  lemma DropBalanced(s: State, t: nat, r: Ref)
    requires t < |s.threads| && s.threads[t].SetLeave? && Proceed(s, t).Next? && Balanced(s, r)
    ensures Balanced(Proceed(s, t).state, r)
  {
    var s' := Proceed(s, t).state;
    ThreadMoves(s.threads, Owned, r, t, Idle);
    ThreadMoves(s.threads, Pending, r, t, Idle);
    assert s'.dropped[r] == s.dropped[r] + Bag(s.threads[t].displaced)[r];
    assert s' == Becomes(s, t, Idle).(objs := s'.objs, dropped := s'.dropped);
  }

  lemma ProceedBalanced(s: State, t: nat, r: Ref)
    requires Inv(s) && t < |s.threads| && Proceed(s, t).Next?
    ensures Balanced(Proceed(s, t).state, r)
  {
    assert CountRight(s, r) && ThreadRight(s, t);
    assert s.displaced[r] == s.dropped[r] + ThreadRefs(s.threads, Pending, r);
    match s.threads[t]
    case GetRead(_, _) => RetainBalanced(s, t, r);
    case SetEnter(_, _) => RetainBalanced(s, t, r);
    case GetLeave(_) => HandOverBalanced(s, t, r);
    case SetRead(_, _, _) => SwapBalanced(s, t, r);
    case SetLeave(_) => DropBalanced(s, t, r);
    case _ => QuietBalanced(s, t, r);
  }

  /** What thread u relies on outlives an action of thread t. */
  lemma OtherThread(s: State, t: nat, u: nat)
    requires ThreadsRight(s) && t < |s.threads| && u < |s.threads| && u != t && Proceed(s, t).Next?
    ensures ThreadRight(Proceed(s, t).state, u)
  {
    var s' := Proceed(s, t).state;
    assert ThreadRight(s, t) && ThreadRight(s, u);
    assert s'.threads[u] == s.threads[u] && |s'.slots| == |s.slots|;
    if s.threads[u].SetEnter? && s.threads[u].val.Some? {
    }
  }

  lemma ThisThread(s: State, t: nat)
    requires ThreadsRight(s) && t < |s.threads| && Proceed(s, t).Next?
    ensures ThreadRight(Proceed(s, t).state, t)
  {
    assert ThreadRight(s, t);
  }

  /** Moving a thread whose tokens do not change. */
  lemma BeginKeeps(s: State, t: nat, th: Thread)
    requires Inv(s) && t < |s.threads| && s.threads[t].Idle?
    requires th.GetEnter? || (th.SetEnter? && (th.val.Some? ==> InHand(s, th.val.value)))
    requires th.slot < |s.slots|
    ensures Inv(Becomes(s, t, th))
  {
    var s' := Becomes(s, t, th);
    forall r: Ref ensures CountRight(s', r) && s'.displaced[r] == s'.dropped[r] + ThreadRefs(s'.threads, Pending, r) {
      ThreadMoves(s.threads, Owned, r, t, th);
      ThreadMoves(s.threads, Pending, r, t, th);
      assert CountRight(s, r);
      assert s.displaced[r] == s.dropped[r] + ThreadRefs(s.threads, Pending, r);
    }
    forall u | 0 <= u < |s'.threads| ensures ThreadRight(s', u) {
      assert ThreadRight(s, u);
    }
  }

  /** A change outside the accessors that accounts for every reference and leaves in hand
      what a setter is about to retain. */
  lemma OutsideKeeps(s: State, s': State)
    requires Inv(s) && s'.slots == s.slots && s'.threads == s.threads && s'.lock == s.lock
    requires s'.displaced == s.displaced && s'.dropped == s.dropped
    requires forall r: Ref :: CountRight(s', r)
    requires forall r: Ref {:trigger InHand(s', r)} :: InHand(s, r) && Pinned(s, r) ==> InHand(s', r)
    ensures Inv(s')
  {
    forall u | 0 <= u < |s'.threads| ensures ThreadRight(s', u) {
      assert ThreadRight(s, u);
      if s.threads[u].SetEnter? && s.threads[u].val.Some? {
        assert Pinned(s, s.threads[u].val.value);
      }
    }
  }

  lemma DropKeeps(s: State, s': State, r: Ref)
    requires Inv(s) && MayDrop(s, r) && Usable(s.objs, r)
    requires s' == s.(objs := Dec(s.objs, r), outside := s'.outside, pool := s'.pool)
    requires forall x: Ref {:trigger s'.pool[x]} {:trigger s'.outside[x]} ::
               Handles(s', x) + (if x == r then 1 else 0) == Handles(s, x)
    ensures Inv(s')
  {
    forall x: Ref ensures CountRight(s', x) {
      assert CountRight(s, x);
      assert s'.pool[x] + s'.outside[x] == Handles(s', x);
    }
    forall x: Ref | InHand(s, x) && Pinned(s, x) ensures InHand(s', x) {
      assert s'.pool[x] + s'.outside[x] == Handles(s', x);
    }
    OutsideKeeps(s, s');
  }

  lemma AllocKeeps(s: State, immortal: bool)
    requires Inv(s)
    ensures Inv(Do(s, Alloc(immortal)).state)
  {
    var s' := Do(s, Alloc(immortal)).state;
    forall x: Ref ensures CountRight(s', x) {
      assert CountRight(s, x);
    }
    OutsideKeeps(s, s');
  }

  lemma RetainKeeps(s: State, r: Ref)
    requires Inv(s) && Do(s, Retain(r)).Next?
    ensures Inv(Do(s, Retain(r)).state)
  {
    var s' := Do(s, Retain(r)).state;
    forall x: Ref ensures CountRight(s', x) {
      assert CountRight(s, x);
    }
    OutsideKeeps(s, s');
  }

  lemma DeallocKeeps(s: State, r: Ref)
    requires Inv(s) && Do(s, Dealloc(r)).Next?
    ensures Inv(Do(s, Dealloc(r)).state)
  {
    var s' := Do(s, Dealloc(r)).state;
    forall x: Ref ensures CountRight(s', x) {
      assert CountRight(s, x);
    }
    OutsideKeeps(s, s');
  }

  lemma GoKeeps(s: State, t: nat)
    requires Inv(s) && t < |s.threads| && Proceed(s, t).Next?
    ensures Inv(Proceed(s, t).state)
  {
    var s' := Proceed(s, t).state;
    forall r: Ref ensures CountRight(s', r) && s'.displaced[r] == s'.dropped[r] + ThreadRefs(s'.threads, Pending, r) {
      ProceedBalanced(s, t, r);
    }
    assert |s'.threads| == |s.threads| && (s'.lock == s.lock || s'.lock == None || s'.lock == Some(t));
    forall u | 0 <= u < |s'.threads| ensures ThreadRight(s', u) {
      if u == t {
        ThisThread(s, t);
      } else {
        OtherThread(s, t, u);
      }
    }
  }

  lemma StepKeeps(s: State, step: Step)
    requires Inv(s) && Do(s, step).Next?
    ensures Inv(Do(s, step).state)
  {
    var s' := Do(s, step).state;
    match step
    case BeginGet(t, slot) => BeginKeeps(s, t, GetEnter(slot));
    case BeginSet(t, slot, val) => BeginKeeps(s, t, SetEnter(slot, val));
    case Go(t) =>
      GoKeeps(s, t);
    case Retain(r) => RetainKeeps(s, r);
    case Release(r) => DropKeeps(s, s', r);
    case Drain(r) => DropKeeps(s, s', r);
    case Dealloc(r) => DeallocKeeps(s, r);
    case Alloc(immortal) => AllocKeeps(s, immortal);
  }

  // ---------- whole runs ----------

  /** Running any steps in any order; a step that is not possible is skipped. */
  ghost function Run(s: State, steps: seq<Step>): Outcome
    decreases |steps|
  {
    if steps == [] then Next(s)
    else
      match Do(s, steps[0])
      case Fault => Fault
      case Blocked => Run(s, steps[1..])
      case Next(s') => Run(s', steps[1..])
  }

  /** Empty properties, idle threads, nothing allocated. */
  function Start(slots: nat, threads: nat): State {
    State([], seq(slots, _ => None), seq(threads, _ => Idle), None, multiset{}, multiset{}, multiset{}, multiset{})
  }

  lemma {:induction false} NoRefs(slots: seq<Option<Ref>>, ts: seq<Thread>, kind: Kind, r: Ref)
    requires (forall i :: 0 <= i < |slots| ==> slots[i] == None) && forall t :: 0 <= t < |ts| ==> ts[t] == Idle
    ensures SlotRefs(slots, r) == 0 && ThreadRefs(ts, kind, r) == 0
    decreases |slots| + |ts|
  {
    if slots != [] {
      NoRefs(slots[..|slots| - 1], ts, kind, r);
    } else if ts != [] {
      NoRefs(slots, ts[..|ts| - 1], kind, r);
    }
  }

  /** Over every interleaving of any number of getters and setters of any properties: no
      dead object is retained or released, every count is right, and every displaced value
      has been released once or is still to be, by the setter that displaced it. */
  lemma {:induction false} EveryRun(s: State, steps: seq<Step>)
    requires Inv(s)
    ensures Run(s, steps).Next? && Inv(Run(s, steps).state)
    decreases |steps|
  {
    if steps != [] {
      NeverFaults(s, steps[0]);
      var o := Do(s, steps[0]);
      if o.Next? {
        StepKeeps(s, steps[0]);
        EveryRun(o.state, steps[1..]);
      } else {
        EveryRun(s, steps[1..]);
      }
    }
  }

  lemma StartRight(slots: nat, threads: nat)
    ensures Inv(Start(slots, threads))
  {
    var s := Start(slots, threads);
    forall r: Ref ensures CountRight(s, r) && s.displaced[r] == s.dropped[r] + ThreadRefs(s.threads, Pending, r) {
      NoRefs(s.slots, s.threads, Owned, r);
      NoRefs(s.slots, s.threads, Pending, r);
    }
    forall t | 0 <= t < threads ensures ThreadRight(s, t) {}
  }

  /** From the start: any number of threads running any accessors of any number of
      properties, in any interleaving with the program around them. */
  lemma EveryRunFromStart(slots: nat, threads: nat, steps: seq<Step>)
    ensures Run(Start(slots, threads), steps).Next?
    ensures var s := Run(Start(slots, threads), steps).state;
      && (forall r: Ref :: CountRight(s, r)) && DisplacedOnce(s)
      && forall i :: 0 <= i < |s.slots| && s.slots[i].Some? ==> Usable(s.objs, s.slots[i].value)
  {
    StartRight(slots, threads);
    EveryRun(Start(slots, threads), steps);
    var s := Run(Start(slots, threads), steps).state;
    forall i | 0 <= i < |s.slots| && s.slots[i].Some? ensures Usable(s.objs, s.slots[i].value) {
      SlotAlive(s, i);
    }
  }

  /** When no accessor is under way, the displaced values are exactly the released ones. */
  lemma Quiescent(s: State, r: Ref)
    requires Inv(s) && forall t :: 0 <= t < |s.threads| ==> s.threads[t] == Idle
    ensures s.displaced[r] == s.dropped[r]
    ensures r < |s.objs| && !s.objs[r].immortal ==> s.objs[r].count == SlotRefs(s.slots, r) + s.pool[r] + s.outside[r]
  {
    NoRefs([], s.threads, Pending, r);
    NoRefs([], s.threads, Owned, r);
    assert CountRight(s, r);
  }
}
