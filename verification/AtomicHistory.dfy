/**
 The atomic property accessors are linearizable: every run of the protocol has the calls and
 returns of a run in which each accessor acts on a plain map of properties in one moment
 between its call and its return.
 */
module AtomicHistory {
  import opened Wrappers
  import opened AtomicProperty

  // ---------- what the program sees ----------

  /** A call of an accessor, or its return: what it has handed to the autorelease pool and
      what it has released. */
  datatype Event =
    | CallGet(t: nat, slot: nat)
    | CallSet(t: nat, slot: nat, val: Option<Ref>)
    | Return(t: nat, handed: multiset<Ref>, released: multiset<Ref>)

  /** The event of a step from s to s': a thread enters an accessor, or leaves it. */
  ghost function Seen(s: State, step: Step, s': State): seq<Event> {
    match step
    case BeginGet(t, slot) => [CallGet(t, slot)]
    case BeginSet(t, slot, val) => [CallSet(t, slot, val)]
    case Go(t) =>
      if t < |s.threads| && t < |s'.threads| && s.threads[t] != Idle && s'.threads[t] == Idle
      then [Return(t, s'.pool - s.pool, s'.dropped - s.dropped)]
      else []
    case _ => []
  }

  /** The calls and returns of a run, in order. */
  ghost function History(s: State, steps: seq<Step>): seq<Event>
    decreases |steps|
  {
    if steps == [] then []
    else
      match Do(s, steps[0])
      case Fault => []
      case Blocked => History(s, steps[1..])
      case Next(s') => Seen(s, steps[0], s') + History(s', steps[1..])
  }

  // ---------- properties without concurrency ----------

  /** A call under way: a getter that has got a value or not yet, a setter that has replaced
      a value or not yet. */
  datatype Call =
    | NoCall
    | Getting(slot: nat, got: Option<Option<Ref>>)
    | Setting(slot: nat, val: Option<Ref>, replaced: Option<Option<Ref>>)

  datatype Spec = Spec(props: seq<Option<Ref>>, calls: seq<Call>)

  /** A move is a call, a return, or the one moment at which a call takes effect. */
  datatype Move = Enter(e: Event) | Effect(t: nat) | Leave(t: nat)

  function WithCall(a: Spec, t: nat, c: Call): Spec
    requires t < |a.calls|
  {
    a.(calls := a.calls[t := c])
  }

  /** A getter gets the property's value; a setter sets it and replaces the one before. */
  function Take(a: Spec, m: Move): Option<Spec> {
    match m
    case Enter(e) =>
      if e.t >= |a.calls| || a.calls[e.t] != NoCall then None
      else if e.CallGet? && e.slot < |a.props| then Some(WithCall(a, e.t, Getting(e.slot, None)))
      else if e.CallSet? && e.slot < |a.props| then Some(WithCall(a, e.t, Setting(e.slot, e.val, None)))
      else None
    case Effect(t) =>
      if t >= |a.calls| then None
      else
        (match a.calls[t]
         case Getting(slot, None) =>
           if slot < |a.props| then Some(WithCall(a, t, Getting(slot, Some(a.props[slot])))) else None
         case Setting(slot, val, None) =>
           if slot < |a.props|
           then Some(WithCall(a, t, Setting(slot, val, Some(a.props[slot]))).(props := a.props[slot := val]))
           else None
         case _ => None)
    case Leave(t) =>
      if t < |a.calls| && Finished(a.calls[t]) then Some(WithCall(a, t, NoCall)) else None
  }

  predicate Finished(c: Call) {
    (c.Getting? && c.got.Some?) || (c.Setting? && c.replaced.Some?)
  }

  /** A getter hands over what it got, a setter releases what it replaced. */
  function Shown(a: Spec, m: Move): seq<Event> {
    match m
    case Enter(e) => [e]
    case Effect(_) => []
    case Leave(t) =>
      if t >= |a.calls| then []
      else
        (match a.calls[t]
         case Getting(_, Some(v)) => [Return(t, Bag(v), multiset{})]
         case Setting(_, _, Some(v)) => [Return(t, multiset{}, Bag(v))]
         case _ => [])
  }

  function Moves(a: Spec, ms: seq<Move>): Option<Spec>
    decreases |ms|
  {
    if ms == [] then Some(a)
    else
      var next := Take(a, ms[0]);
      if next.None? then None else Moves(next.value, ms[1..])
  }

  function Trace(a: Spec, ms: seq<Move>): seq<Event>
    decreases |ms|
  {
    if ms == [] then []
    else
      var next := Take(a, ms[0]);
      if next.None? then [] else Shown(a, ms[0]) + Trace(next.value, ms[1..])
  }

  // ---------- the accessors implement this ----------

  /** A thread of the protocol and the call it is executing. */
  predicate Matches(th: Thread, c: Call) {
    match th
    case Idle => c == NoCall
    case GetEnter(slot) => c == Getting(slot, None)
    case GetLocked(slot) => c == Getting(slot, None)
    case GetRead(slot, val) => c == Getting(slot, Some(val))
    case GetRetained(val) => c.Getting? && c.got == Some(val)
    case GetLeave(val) => c.Getting? && c.got == Some(val)
    case SetEnter(slot, val) => c == Setting(slot, val, None)
    case SetRetained(slot, val) => c == Setting(slot, val, None)
    case SetLocked(slot, val) => c == Setting(slot, val, None)
    case SetRead(slot, val, _) => c == Setting(slot, val, None)
    case SetWritten(displaced) => c.Setting? && c.replaced == Some(displaced)
    case SetLeave(displaced) => c.Setting? && c.replaced == Some(displaced)
  }

  /** The slots are the properties, and every thread is where its call is. */
  ghost predicate Implements(s: State, a: Spec) {
    && a.props == s.slots && |a.calls| == |s.threads|
    && forall t {:trigger s.threads[t]} :: 0 <= t < |s.threads| ==> Matches(s.threads[t], a.calls[t])
  }

  /** The moves that a step makes: a read or a write takes effect, most steps none. */
  ghost function MovesOf(s: State, step: Step): seq<Move> {
    match step
    case BeginGet(t, slot) => [Enter(CallGet(t, slot))]
    case BeginSet(t, slot, val) => [Enter(CallSet(t, slot, val))]
    case Go(t) =>
      if t >= |s.threads| then []
      else if s.threads[t].GetLocked? || s.threads[t].SetRead? then [Effect(t)]
      else if s.threads[t].GetLeave? || s.threads[t].SetLeave? then [Leave(t)]
      else []
    case _ => []
  }

  /** Every step of the protocol is such moves, with the same event. */
  ghost predicate Simulates(s: State, step: Step, s': State, a: Spec) {
    var ms := MovesOf(s, step);
    Moves(a, ms).Some? && Implements(s', Moves(a, ms).value) && Trace(a, ms) == Seen(s, step, s')
  }

  lemma OneMove(a: Spec, m: Move)
    ensures Moves(a, [m]) == Take(a, m)
    ensures Trace(a, [m]) == if Take(a, m).Some? then Shown(a, m) else []
  {
    if Take(a, m).Some? {
      assert Moves(Take(a, m).value, [m][1..]) == Some(Take(a, m).value);
      assert Shown(a, m) + [] == Shown(a, m);
    }
  }

  lemma CallSimulated(s: State, step: Step, a: Spec)
    requires Implements(s, a) && (step.BeginGet? || step.BeginSet?) && Do(s, step).Next?
    ensures Simulates(s, step, Do(s, step).state, a)
  {
    OneMove(a, MovesOf(s, step)[0]);
    assert Matches(s.threads[step.t], a.calls[step.t]);
  }

  /** Reading and writing, both under the lock, are where the accessors take effect. */
  lemma EffectSimulated(s: State, t: nat, a: Spec)
    requires Implements(s, a) && Inv(s) && t < |s.threads| && Proceed(s, t).Next?
    requires s.threads[t].GetLocked? || s.threads[t].SetRead?
    ensures Simulates(s, Go(t), Proceed(s, t).state, a)
  {
    OneMove(a, Effect(t));
    assert ThreadRight(s, t) && Matches(s.threads[t], a.calls[t]);
  }

  lemma ReturnSimulated(s: State, t: nat, a: Spec)
    requires Implements(s, a) && t < |s.threads| && Proceed(s, t).Next?
    requires s.threads[t].GetLeave? || s.threads[t].SetLeave?
    ensures Simulates(s, Go(t), Proceed(s, t).state, a)
  {
    LeavesWith(s, t);
    LeaveSimulated(s, Proceed(s, t).state, t, a);
  }

  lemma LeaveSimulated(s: State, s': State, t: nat, a: Spec)
    requires Implements(s, a) && t < |s.threads| && (s.threads[t].GetLeave? || s.threads[t].SetLeave?)
    requires s'.threads == s.threads[t := Idle] && s'.slots == s.slots
    requires s'.pool - s.pool == if s.threads[t].GetLeave? then Bag(s.threads[t].val) else multiset{}
    requires s'.dropped - s.dropped == if s.threads[t].SetLeave? then Bag(s.threads[t].displaced) else multiset{}
    ensures Simulates(s, Go(t), s', a)
  {
    OneMove(a, Leave(t));
    assert Matches(s.threads[t], a.calls[t]);
  }

  /** What a returning accessor adds to the pool, or releases. */
  lemma LeavesWith(s: State, t: nat)
    requires t < |s.threads| && Proceed(s, t).Next?
    requires s.threads[t].GetLeave? || s.threads[t].SetLeave?
    ensures var s' := Proceed(s, t).state;
      && s'.threads == s.threads[t := Idle] && s'.slots == s.slots
      && s'.pool - s.pool == (if s.threads[t].GetLeave? then Bag(s.threads[t].val) else multiset{})
      && s'.dropped - s.dropped == (if s.threads[t].SetLeave? then Bag(s.threads[t].displaced) else multiset{})
  {
    if s.threads[t].GetLeave? {
      Difference(s.pool, Bag(s.threads[t].val));
    } else {
      Difference(s.dropped, Bag(s.threads[t].displaced));
    }
  }

  lemma Difference(b: multiset<Ref>, more: multiset<Ref>)
    ensures b + more - b == more && b - b == multiset{} && b + multiset{} == b
  {
  }

  lemma SilentSimulated(s: State, t: nat, a: Spec)
    requires Implements(s, a) && t < |s.threads| && Proceed(s, t).Next? && MovesOf(s, Go(t)) == []
    ensures Simulates(s, Go(t), Proceed(s, t).state, a)
  {
    assert Matches(s.threads[t], a.calls[t]);
  }

  lemma StepSimulated(s: State, step: Step, a: Spec)
    requires Implements(s, a) && Inv(s) && Do(s, step).Next?
    ensures Simulates(s, step, Do(s, step).state, a)
  {
    match step
    case BeginGet(_, _) => CallSimulated(s, step, a);
    case BeginSet(_, _, _) => CallSimulated(s, step, a);
    case Go(t) =>
      if s.threads[t].GetLocked? || s.threads[t].SetRead? {
        EffectSimulated(s, t, a);
      } else if s.threads[t].GetLeave? || s.threads[t].SetLeave? {
        ReturnSimulated(s, t, a);
      } else {
        SilentSimulated(s, t, a);
      }
    case _ =>
  }

  lemma {:induction false} MovesAppend(a: Spec, ms: seq<Move>, more: seq<Move>)
    requires Moves(a, ms).Some?
    ensures Moves(a, ms + more) == Moves(Moves(a, ms).value, more)
    ensures Trace(a, ms + more) == Trace(a, ms) + Trace(Moves(a, ms).value, more)
    decreases |ms|
  {
    if ms == [] {
      assert ms + more == more;
    } else {
      assert (ms + more)[0] == ms[0] && (ms + more)[1..] == ms[1..] + more;
      MovesAppend(Take(a, ms[0]).value, ms[1..], more);
    }
  }

  lemma {:induction false} RunSimulated(s: State, steps: seq<Step>, a: Spec) returns (ms: seq<Move>)
    requires Implements(s, a) && Inv(s)
    ensures Run(s, steps).Next? && Moves(a, ms).Some?
    ensures Implements(Run(s, steps).state, Moves(a, ms).value) && Trace(a, ms) == History(s, steps)
    decreases |steps|
  {
    ms := [];
    if steps != [] {
      NeverFaults(s, steps[0]);
      var o := Do(s, steps[0]);
      if o.Next? {
        StepKeeps(s, steps[0]);
        StepSimulated(s, steps[0], a);
        var first := MovesOf(s, steps[0]);
        var rest := RunSimulated(o.state, steps[1..], Moves(a, first).value);
        MovesAppend(a, first, rest);
        ms := first + rest;
      } else {
        ms := RunSimulated(s, steps[1..], a);
      }
    }
  }

  function SpecStart(slots: nat, threads: nat): Spec {
    Spec(seq(slots, _ => None), seq(threads, _ => NoCall))
  }

  /** Linearizability: for every run there are moments at which the accessors take effect
      one after the other, each between its call and its return, such that every getter
      hands to the pool the value that the property has at its moment, every setter
      releases the value that it replaces at its moment, and the slots hold what the last
      setters have put there. */
  lemma Linearizable(slots: nat, threads: nat, steps: seq<Step>)
    ensures Run(Start(slots, threads), steps).Next?
    ensures exists ms :: LinearRun(slots, threads, steps, ms)
  {
    var s, a := Start(slots, threads), SpecStart(slots, threads);
    StartRight(slots, threads);
    assert Implements(s, a);
    var ms := RunSimulated(s, steps, a);
    assert LinearRun(slots, threads, steps, ms);
  }

  ghost predicate LinearRun(slots: nat, threads: nat, steps: seq<Step>, ms: seq<Move>) {
    var a, o := SpecStart(slots, threads), Run(Start(slots, threads), steps);
    && Moves(a, ms).Some? && Trace(a, ms) == History(Start(slots, threads), steps)
    && o.Next? && o.state.slots == Moves(a, ms).value.props
  }

  // ---------- progress ----------

  /** How many actions a thread has to go until it leaves the accessor. */
  function Left(th: Thread): nat {
    match th
    case Idle => 0
    case GetEnter(_) => 5
    case GetLocked(_) => 4
    case GetRead(_, _) => 3
    case GetRetained(_) => 2
    case GetLeave(_) => 1
    case SetEnter(_, _) => 6
    case SetRetained(_, _) => 5
    case SetLocked(_, _) => 4
    case SetRead(_, _, _) => 3
    case SetWritten(_) => 2
    case SetLeave(_) => 1
  }

  function AllLeft(ts: seq<Thread>): nat {
    if ts == [] then 0 else AllLeft(ts[..|ts| - 1]) + Left(ts[|ts| - 1])
  }

  lemma {:induction false} AllLeftMoves(ts: seq<Thread>, t: nat, th: Thread)
    requires t < |ts|
    ensures AllLeft(ts[t := th]) + Left(ts[t]) == AllLeft(ts) + Left(th)
  {
    var n := |ts| - 1;
    if t == n {
      assert ts[t := th][..n] == ts[..n];
    } else {
      assert ts[t := th][..n] == ts[..n][t := th];
      AllLeftMoves(ts[..n], t, th);
    }
  }

  /** Every action brings its thread nearer to the end and leaves the others where they are. */
  lemma GoShortens(s: State, t: nat)
    requires t < |s.threads| && Proceed(s, t).Next?
    ensures Shortens(s, Proceed(s, t).state, t)
  {
    if s.threads[t].GetEnter? || s.threads[t].GetLocked? || s.threads[t].GetRead? || s.threads[t].GetRetained? ||
       s.threads[t].GetLeave? {
      GetterShortens(s, t);
    } else {
      SetterShortens(s, t);
    }
  }

  ghost predicate Shortens(s: State, s': State, t: nat) {
    && t < |s.threads| == |s'.threads| && s'.threads == s.threads[t := s'.threads[t]]
    && Left(s'.threads[t]) + 1 == Left(s.threads[t])
  }

  lemma GetterShortens(s: State, t: nat)
    requires t < |s.threads| && Proceed(s, t).Next?
    requires match s.threads[t]
      case GetEnter(_) => true
      case GetLocked(_) => true
      case GetRead(_, _) => true
      case GetRetained(_) => true
      case GetLeave(_) => true
      case _ => false
    ensures Shortens(s, Proceed(s, t).state, t)
  {
  }

  lemma SetterShortens(s: State, t: nat)
    requires t < |s.threads| && Proceed(s, t).Next?
    requires match s.threads[t]
      case SetEnter(_, _) => true
      case SetRetained(_, _) => true
      case SetLocked(_, _) => true
      case SetRead(_, _, _) => true
      case SetWritten(_) => true
      case SetLeave(_) => true
      case _ => false
    ensures Shortens(s, Proceed(s, t).state, t)
  {
  }

  /** Unless all threads are idle, some thread can go on: the lock is never left behind. */
  lemma NoDeadlock(s: State, u: nat) returns (t: nat)
    requires Inv(s) && u < |s.threads| && s.threads[u] != Idle
    ensures t < |s.threads| && Proceed(s, t).Next?
  {
    t := if s.lock.Some? then s.lock.value else u;
    assert ThreadRight(s, t) && ThreadRight(s, u);
    ProceedSafe(s, t);
  }

  ghost predicate AllIdle(s: State) {
    forall t :: 0 <= t < |s.threads| ==> s.threads[t] == Idle
  }

  /** From every state that can be reached, the accessors under way can all return. */
  lemma {:induction false} AllReturn(s: State) returns (gos: seq<Step>)
    requires Inv(s)
    ensures forall k :: 0 <= k < |gos| ==> gos[k].Go?
    ensures Run(s, gos).Next? && AllIdle(Run(s, gos).state)
    decreases AllLeft(s.threads)
  {
    gos := [];
    if !AllIdle(s) {
      var u: nat :| u < |s.threads| && s.threads[u] != Idle;
      var t := NoDeadlock(s, u);
      GoShortens(s, t);
      var s' := Proceed(s, t).state;
      AllLeftMoves(s.threads, t, s'.threads[t]);
      StepKeeps(s, Go(t));
      var rest := AllReturn(s');
      gos := [Go(t)] + rest;
      assert gos[1..] == rest;
    }
  }
}
