/**
 The balance theorem for whole methods: parameters are retained on entry, tracked like
 locals, and released on every way out.
 */
module ArcMethods {
  import opened Wrappers
  import opened ObjectHeap
  import opened ArcSyntax
  import opened ArcEmission
  import opened ArcFragment
  import opened ArcMachine
  import opened ArcTokens
  import opened ArcBalance
  import opened ArcMeaning
  import opened ArcFaithful

  lemma {:induction false} EntryRetains(params: seq<Name>, st: State, w: World)
    requires Owns(st, w, multiset{})
    requires forall x :: x in params ==> x in st.env && Live(st.heap, st.env[x])
    ensures var r := ExecSeq(RetainCode(params), st);
      && r.exit.Normal? && r.st == st.(heap := r.st.heap)
      && Owns(r.st, w, Tokens(params, {}, st.env))
      && forall i: nat :: ActiveAt(st.heap, i) ==> ActiveAt(r.st.heap, i)
  {
    if params != [] {
      var n := |params| - 1;
      var x := params[n];
      EntryRetains(params[..n], st, w);
      assert RetainCode(params) == RetainCode(params[..n]) + [CRetain(x)];
      ExecAppend(RetainCode(params[..n]), [CRetain(x)], st);
      var st1 := ExecSeq(RetainCode(params[..n]), st).st;
      ExecOne(CRetain(x), st1);
      assert st.env[x].Obj? ==> ActiveAt(st.heap, st.env[x].id);
      RetainVar(x, st1, w, Tokens(params[..n], {}, st.env));
    }
  }

  /** The main result.  The caller passes live arguments and holds the receiver; then
      every run of the emitted body ends, if it ends, in a fall-through or a return, with
      all counts exact and at most one reference, to the returned object, handed over,
      whatever the calls in it do with references of their own. */
  lemma MethodBalanced(params: seq<Name>, body: seq<Stmt>, st: State, w: World)
    requires GoodMethod(params, body, |Slots(w.cls)|)
    requires Owns(st, w, multiset{})
    requires forall x :: x in params ==> x in st.env && Live(st.heap, st.env[x])
    ensures var r := ExecSeq(EmitMethod(params, body), st);
      match r.exit
      case Normal => Owns(r.st, w, multiset{})
      case Returned(e, v) => Owns(r.st, w, Carried(e, v))
      case Cut => true
      case _ => false
  {
    var c := Push(EntryCtx(params), params);
    var scope := EmitScope(body, c);
    EntryRetains(params, st, w);
    ExecAppend(RetainCode(params), scope.code, st);
    var st1 := ExecSeq(RetainCode(params), st).st;
    EntryHolds(params, st1, w);
    ScopeBalanced(body, c, st1, w, |Slots(w.cls)|, 0);
    var r := ExecSeq(scope.code, st1);
    if r.exit.Normal? {
      BodyExtends(body, c, |Slots(w.cls)|, 0);
      assert scope.ctx.frames == [];
    }
  }

  // ---------- methods whose callees leave the heap alone ----------

  predicate Quiet(st: State) {
    forall c :: c in st.choices ==> !c.Act?
  }

  /** Nothing but the deeds of callees changes what the outside holds. */
  lemma {:induction false} ExecQuiet(c: Code, st: State)
    requires Quiet(st)
    ensures var r := Exec(c, st); r.st.out == st.out && Quiet(r.st)
    decreases |st.choices|, c, 1
  {
    match c
    case CBlock(body) => SeqQuiet(body, st);
    case CDeclare(x, e) => EvalQuiet(e, st);
    case CAssign(x, e) => EvalQuiet(e, st);
    case CLock(x, e) => EvalQuiet(e, st);
    case CIf(thn, els) =>
      AskQuiet(st);
      var a := Condition(st);
      if a.Answer? {
        SeqQuiet(thn, a.st);
        SeqQuiet(els, a.st);
      }
    case CWhile(body) =>
      AskQuiet(st);
      var a := Condition(st);
      if a.Answer? && a.c.taken {
        SeqQuiet(body, a.st);
        ExecQuiet(c, ExecSeq(body, a.st).st);
      }
    case CDo(body) => DoQuiet(c, body, st);
    case CReturn(e) =>
      if e.Some? {
        EvalQuiet(e.value, st);
      }
    case COther => AskQuiet(st);
    case _ =>
  }

  lemma {:induction false} DoQuiet(c: Code, body: seq<Code>, st: State)
    requires Quiet(st) && c == CDo(body)
    ensures var r := Exec(c, st); r.st.out == st.out && Quiet(r.st)
    decreases |st.choices|, c, 0
  {
    SeqQuiet(body, st);
    DoPass(body, st);
    var r := ExecSeq(body, st);
    AskQuiet(r.st);
    var a := Condition(r.st);
    if a.Answer? {
      ExecQuiet(c, a.st);
    }
  }

  lemma {:induction false} SeqQuiet(cs: seq<Code>, st: State)
    requires Quiet(st)
    ensures var r := ExecSeq(cs, st); r.st.out == st.out && Quiet(r.st)
    decreases |st.choices|, cs, 0
  {
    if cs != [] {
      ExecQuiet(cs[0], st);
      SeqQuiet(cs[1..], Exec(cs[0], st).st);
    }
  }

  lemma AskQuiet(st: State)
    requires Quiet(st)
    ensures var a := Ask(st); a.Answer? ==> a.st.out == st.out && Quiet(a.st)
  {
  }

  lemma EvalQuiet(e: Expr, st: State)
    requires Quiet(st)
    ensures var r := Eval(e, st); r.Val? ==> r.st.out == st.out && Quiet(r.st)
  {
    AskQuiet(st);
  }

  /** Then a method call as a whole changes no count but that of what it returns. */
  lemma QuietMethodBalanced(params: seq<Name>, body: seq<Stmt>, st: State, w: World)
    requires GoodMethod(params, body, |Slots(w.cls)|) && Quiet(st)
    requires Owns(st, w, multiset{})
    requires forall x :: x in params ==> x in st.env && Live(st.heap, st.env[x])
    ensures var r := ExecSeq(EmitMethod(params, body), st);
      && (r.exit.Normal? ==> Counted(r.st.heap, st.out))
      && (r.exit.Returned? ==> Counted(r.st.heap, st.out + Carried(r.exit.e, r.exit.v)))
  {
    MethodBalanced(params, body, st, w);
    SeqQuiet(EmitMethod(params, body), st);
    assert st.out + multiset{} == st.out;
  }

  // ---------- methods do what they say ----------

  /** In the fragment nothing faults, so a method does what its source says and counts
      exactly; and as long as no choice depends on which objects are alive, it ends as its
      source does. */
  lemma MethodRight(params: seq<Name>, body: seq<Stmt>, st: State, w: World)
    requires GoodMethod(params, body, |Slots(w.cls)|) && AllLocal(body)
    requires Owns(st, w, multiset{})
    requires forall x :: x in params ==> x in st.env && Live(st.heap, st.env[x])
    ensures var r, m := ExecSeq(EmitMethod(params, body), st), MeanAll(body, SceneOf(st));
      && (r.exit.Cut? || (r.exit == m.exit && Same(r.st, m.sc)))
      && (Tame(st.choices) ==> r.exit == m.exit)
      && (r.exit.Normal? ==> Owns(r.st, w, multiset{}))
      && (r.exit.Returned? ==> Owns(r.st, w, Carried(r.exit.e, r.exit.v)))
  {
    MethodBalanced(params, body, st, w);
    MethodFaithful(params, body, st);
  }

  lemma EntryHolds(params: seq<Name>, st: State, w: World)
    requires Distinct(params) && (forall x :: x in params ==> x.Local? && x in st.env)
    requires Owns(st, w, Tokens(params, {}, st.env))
    ensures var c := Push(EntryCtx(params), params); Sound(c) && Holds(st, w, c.frames, c.consumed)
  {
    FlattenPush([], params);
    assert [] + [params] == [params] && [] + params == params;
    SoundPush(EntryCtx(params), params);
  }
}
