/**
 Counting allocations over the call graph to size the static pools: a recursion that does
 not enter a function twice on the same path, against the expanded tree of calls.
 */
module AllocCount {

  datatype Alloc = Alloc(cls: string, count: nat)

  datatype Call = Call(callee: string, count: nat)

  /** What each function allocates and how often it calls each function itself. */
  datatype Program = Program(allocs: map<string, seq<Alloc>>, calls: map<string, seq<Call>>)

  function AllocsOf(p: Program, f: string): seq<Alloc> {
    if f in p.allocs then p.allocs[f] else []
  }

  function CallsOf(p: Program, f: string): seq<Call> {
    if f in p.calls then p.calls[f] else []
  }

  // ---------- expanded calls ----------

  /** A call, with the calls that it makes, each as often as it is made. */
  datatype Tree = Tree(func: string, calls: seq<Tree>)

  function Own(allocs: seq<Alloc>, cls: string): nat {
    if allocs == [] then 0
    else
      var a := allocs[|allocs| - 1];
      Own(allocs[..|allocs| - 1], cls) + if a.cls == cls then a.count else 0
  }

  /** The allocations of a class in all these calls and the calls below them. */
  function Total(p: Program, ts: seq<Tree>, cls: string): nat {
    if ts == [] then 0
    else
      var t := ts[|ts| - 1];
      Total(p, ts[..|ts| - 1], cls) + Own(AllocsOf(p, t.func), cls) + Total(p, t.calls, cls)
  }

  function Times(ts: seq<Tree>, n: nat): seq<Tree> {
    if n == 0 then [] else Times(ts, n - 1) + ts
  }

  /** The ranks witness that no function calls itself, directly or not. */
  ghost predicate NoRecursion(p: Program, rank: string -> nat) {
    forall f, i {:trigger p.calls[f][i]} :: f in p.calls && 0 <= i < |p.calls[f]| ==>
      rank(p.calls[f][i].callee) < rank(f)
  }

  /** The call tree of a function, completely expanded. */
  ghost function Expand(p: Program, rank: string -> nat, f: string): Tree
    requires NoRecursion(p, rank)
    decreases rank(f), 0
  {
    Tree(f, ExpandCalls(p, rank, f, CallsOf(p, f)))
  }

  ghost function ExpandCalls(p: Program, rank: string -> nat, f: string, calls: seq<Call>): seq<Tree>
    requires NoRecursion(p, rank)
    requires forall i :: 0 <= i < |calls| ==> rank(calls[i].callee) < rank(f)
    decreases rank(f), 0, |calls|
  {
    if calls == [] then []
    else
      var c := calls[|calls| - 1];
      ExpandCalls(p, rank, f, calls[..|calls| - 1]) + Times([Expand(p, rank, c.callee)], c.count)
  }

  /** The call tree of a function, cut off where a call would return to a function that is
      being expanded already. */
  ghost function Prune(p: Program, f: string, visited: set<string>): seq<Tree>
    decreases p.calls.Keys - visited, 0
  {
    if f in visited then []
    else if f !in p.calls then [Tree(f, [])]
    else [Tree(f, PruneCalls(p, p.calls[f], visited + {f}))]
  }

  ghost function PruneCalls(p: Program, calls: seq<Call>, visited: set<string>): seq<Tree>
    decreases p.calls.Keys - visited, 1, |calls|
  {
    if calls == [] then []
    else
      var c := calls[|calls| - 1];
      PruneCalls(p, calls[..|calls| - 1], visited) + Times(Prune(p, c.callee, visited), c.count)
  }

  lemma {:induction false} TotalAppend(p: Program, a: seq<Tree>, b: seq<Tree>, cls: string)
    ensures Total(p, a + b, cls) == Total(p, a, cls) + Total(p, b, cls)
  {
    if b == [] {
      assert a + b == a;
    } else {
      assert (a + b)[..|a + b| - 1] == a + b[..|b| - 1];
      TotalAppend(p, a, b[..|b| - 1], cls);
    }
  }

  lemma OnceMore(a: nat, n: nat)
    ensures a * n + a == a * (n + 1)
  {
  }

  lemma {:induction false} TotalTimes(p: Program, ts: seq<Tree>, n: nat, cls: string)
    ensures Total(p, Times(ts, n), cls) == Total(p, ts, cls) * n
  {
    if n > 0 {
      TotalTimes(p, ts, n - 1, cls);
      TotalAppend(p, Times(ts, n - 1), ts, cls);
      OnceMore(Total(p, ts, cls), n - 1);
    }
  }

  // ---------- the recursion ----------

  function Count(m: map<string, nat>, cls: string): nat {
    if cls in m then m[cls] else 0
  }

  /** Adds n times the counts of one dictionary to another. */
  method AddCounts(result: map<string, nat>, sub: map<string, nat>, n: nat) returns (sum: map<string, nat>)
    ensures forall cls :: Count(sum, cls) == Count(result, cls) + Count(sub, cls) * n
  {
    sum := result;
    var todo := sub.Keys;
    while todo != {}
      invariant todo <= sub.Keys
      invariant forall cls :: Count(sum, cls) == Count(result, cls) + if cls in todo then 0 else Count(sub, cls) * n
      decreases todo
    {
      var cls :| cls in todo;
      sum := sum[cls := Count(sum, cls) + sub[cls] * n];
      todo := todo - {cls};
    }
  }

  /** The allocations reachable from a function, for every call graph: those of its call
      tree, cut off at functions that are on the path already. */
  method EffectiveAllocs(p: Program, f: string, visited: set<string>) returns (result: map<string, nat>)
    ensures forall cls :: Count(result, cls) == Total(p, Prune(p, f, visited), cls)
    decreases p.calls.Keys - visited, 0
  {
    result := map[];
    if f in visited {
      return;
    }
    var path := visited + {f};
    var allocs := AllocsOf(p, f);
    for i := 0 to |allocs|
      invariant forall cls :: Count(result, cls) == Own(allocs[..i], cls)
    {
      assert allocs[..i + 1][..i] == allocs[..i];
      result := result[allocs[i].cls := Count(result, allocs[i].cls) + allocs[i].count];
    }
    assert allocs[..|allocs|] == allocs;
    if f in p.calls {
      result := AddCalls(p, p.calls[f], path, result);
    }
    forall cls ensures Count(result, cls) == Total(p, Prune(p, f, visited), cls) {
    }
  }

  method AddCalls(p: Program, calls: seq<Call>, path: set<string>, own: map<string, nat>)
    returns (result: map<string, nat>)
    ensures forall cls :: Count(result, cls) == Count(own, cls) + Total(p, PruneCalls(p, calls, path), cls)
    decreases p.calls.Keys - path, 1
  {
    result := own;
    for i := 0 to |calls|
      invariant forall cls :: Count(result, cls) == Count(own, cls) + Total(p, PruneCalls(p, calls[..i], path), cls)
    {
      assert calls[..i + 1][..i] == calls[..i];
      var sub := EffectiveAllocs(p, calls[i].callee, path);
      var sum := AddCounts(result, sub, calls[i].count);
      forall cls ensures Count(sum, cls) == Count(own, cls) + Total(p, PruneCalls(p, calls[..i + 1], path), cls) {
        var before, now := PruneCalls(p, calls[..i], path), Prune(p, calls[i].callee, path);
        TotalAppend(p, before, Times(now, calls[i].count), cls);
        TotalTimes(p, now, calls[i].count, cls);
      }
      result := sum;
    }
    assert calls[..|calls|] == calls;
  }

  // ---------- without recursion nothing is dropped ----------

  /** Every function on the path ranks above f. */
  ghost predicate AllAbove(visited: set<string>, rank: string -> nat, n: nat) {
    forall v :: v in visited ==> n < rank(v)
  }

  /** Without recursion, nothing is cut off: the tree is the completely expanded one. */
  lemma {:induction false} NothingPruned(p: Program, rank: string -> nat, f: string, visited: set<string>)
    requires NoRecursion(p, rank) && AllAbove(visited, rank, rank(f))
    ensures Prune(p, f, visited) == [Expand(p, rank, f)]
    decreases rank(f), 0
  {
    if f in p.calls {
      NoCallPruned(p, rank, f, p.calls[f], visited + {f});
    }
  }

  lemma {:induction false} NoCallPruned(p: Program, rank: string -> nat, f: string, calls: seq<Call>, path: set<string>)
    requires NoRecursion(p, rank)
    requires forall i :: 0 <= i < |calls| ==> rank(calls[i].callee) < rank(f)
    requires forall v :: v in path ==> rank(f) <= rank(v)
    ensures PruneCalls(p, calls, path) == ExpandCalls(p, rank, f, calls)
    decreases rank(f), 0, |calls|
  {
    if calls != [] {
      NoCallPruned(p, rank, f, calls[..|calls| - 1], path);
      NothingPruned(p, rank, calls[|calls| - 1].callee, path);
    }
  }

  /** On a call graph without recursion the result is the exact number of allocations in
      the completely expanded call tree, multiplicities included. */
  method CountAllocs(p: Program, f: string, ghost rank: string -> nat) returns (result: map<string, nat>)
    requires NoRecursion(p, rank)
    ensures forall cls :: Count(result, cls) == Total(p, [Expand(p, rank, f)], cls)
  {
    result := EffectiveAllocs(p, f, {});
    NothingPruned(p, rank, f, {});
  }
}
