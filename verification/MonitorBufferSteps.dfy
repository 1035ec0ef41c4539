/** Every step of the buffer with monitor semaphores keeps the invariant, and is a
    step of the buffer with atomic semaphores or none. */
module MonitorBufferSteps {
  import opened Basics
  import opened MonitorBuffer
  import M = MonitorSemaphore
  import B = BoundedBuffer

  // ---------- the same step of the abstract buffer ----------

  lemma PassesProducer(b: B.Buffer, i: nat)
    requires i < |b.prods|
    ensures var call := ProducerCall(b.prods[i]);
      && (call.Wait? ==> (B.Fires(b, B.Prod(i)) <==> Value(b, call.q) > 0))
      && (call.Post? ==> B.Fires(b, B.Prod(i)))
      && (call.Wait? && B.Fires(b, B.Prod(i)) ==> B.After(b, B.Prod(i)) == Changed(Passed(b, i), call.q, -1))
      && (call.Post? ==> B.After(b, B.Prod(i)) == Changed(Passed(b, i), call.q, 1))
  {
  }

  lemma PassesConsumer(b: B.Buffer, i: nat)
    requires i < |b.cons|
    ensures var call, t := ConsumerCall(b.cons[i]), |b.prods| + i;
      && (call.Wait? ==> (B.Fires(b, B.Cons(i)) <==> Value(b, call.q) > 0))
      && (call.Post? ==> B.Fires(b, B.Cons(i)))
      && (call.Wait? && B.Fires(b, B.Cons(i)) ==> B.After(b, B.Cons(i)) == Changed(Passed(b, t), call.q, -1))
      && (call.Post? ==> B.After(b, B.Cons(i)) == Changed(Passed(b, t), call.q, 1))
  {
  }

  function Value(b: B.Buffer, q: Sem): int {
    match q
    case Full => b.full
    case Empty => b.empty
    case Sync => b.sync
    case Other => b.other
  }

  function Changed(b: B.Buffer, q: Sem, d: int): B.Buffer {
    match q
    case Full => b.(full := b.full + d)
    case Empty => b.(empty := b.empty + d)
    case Sync => b.(sync := b.sync + d)
    case Other => b.(other := b.other + d)
  }

  /** The atomic buffer's step at a semaphore call. */
  lemma Passes(b: B.Buffer, t: nat)
    requires t < Threads(b)
    ensures var call, m := CallAt(b, t), MoveOf(b, t);
      && (call.Wait? ==> (B.Fires(b, m) <==> Value(b, call.q) > 0))
      && (call.Post? ==> B.Fires(b, m))
      && (call.Wait? && B.Fires(b, m) ==> B.After(b, m) == Changed(Passed(b, t), call.q, -1))
      && (call.Post? ==> B.After(b, m) == Changed(Passed(b, t), call.q, 1))
  {
    if t < |b.prods| {
      PassesProducer(b, t);
    } else {
      PassesConsumer(b, t - |b.prods|);
    }
  }

  /** The counters do not matter at a point that is no semaphore call. */
  lemma DataStep(s: System, t: nat)
    requires t < Threads(s.prog) && CallAt(s.prog, t).Data?
    ensures MoveOf(Abs(s), t) == MoveOf(s.prog, t)
    ensures B.Fires(Abs(s), MoveOf(s.prog, t)) <==> B.Fires(s.prog, MoveOf(s.prog, t))
    ensures B.Fires(s.prog, MoveOf(s.prog, t)) ==>
      && Abs(s.(prog := B.After(s.prog, MoveOf(s.prog, t)))) == B.After(Abs(s), MoveOf(s.prog, t))
      && Threads(B.After(s.prog, MoveOf(s.prog, t))) == Threads(s.prog)
      && forall u | 0 <= u < Threads(s.prog) && u != t ::
           CallAt(B.After(s.prog, MoveOf(s.prog, t)), u) == CallAt(s.prog, u)
  {
  }

  lemma PassedCalls(b: B.Buffer, t: nat, u: nat)
    requires t < Threads(b) && u < Threads(b) && u != t
    ensures Threads(Passed(b, t)) == Threads(b) && CallAt(Passed(b, t), u) == CallAt(b, u)
  {
  }

  // ---------- one step of the system ----------

  /** The thread is inside a call on `q`, or about to make it. */
  predicate At(s: System, q: Sem, t: nat, c: M.Choice)
    requires t < |s.inside| && t < Threads(s.prog)
  {
    || s.inside[t] == Some(q)
    || (s.inside[t].None? && ((CallAt(s.prog, t) == Wait(q) && c.Wait?) || (CallAt(s.prog, t) == Post(q) && c.Post?)))
  }

  lemma GetPut(sems: Sems, q: Sem, m: M.Monitor, r: Sem)
    ensures Get(Put(sems, q, m), r) == if r == q then m else Get(sems, r)
  {
  }

  lemma EnterMonitors(s: System, q: Sem, t: nat, c: M.Choice)
    requires Sized(s) && Monitors(s.sems) && t < |s.inside| && M.Fires(Get(s.sems, q), t, c)
    ensures Sized(Enter(s, q, t, c)) && Monitors(Enter(s, q, t, c).sems)
  {
    var s' := Enter(s, q, t, c);
    MonitorMoves(Get(s.sems, q), t, c);
    forall r ensures M.Inv(Get(s'.sems, r)) && |Get(s'.sems, r).pc| == |s'.inside| {
      GetPut(s.sems, q, M.After(Get(s.sems, q), t, c), r);
    }
  }

  /** The thread's own call after its step. */
  lemma EnterOwn(s: System, q: Sem, t: nat, c: M.Choice)
    requires Sized(s) && M.Inv(Get(s.sems, q)) && t < |s.inside| && M.Fires(Get(s.sems, q), t, c) && At(s, q, t, c)
    requires Fits(CallAt(s.prog, t), s.inside[t], q, M.StatusOf(Get(s.sems, q).pc[t]))
    ensures var m, s' := Get(s.sems, q), Enter(s, q, t, c);
      && Threads(s'.prog) == Threads(s.prog)
      && (s'.inside[t] == Some(q) || s'.inside[t].None?)
      && Fits(CallAt(s'.prog, t), s'.inside[t], q, M.StatusOf(M.After(m, t, c).pc[t]))
      && (M.LabelOf(m, t, c).Take? ==> CallAt(s.prog, t) == Wait(q))
      && (M.LabelOf(m, t, c).Add? ==> CallAt(s.prog, t) == Post(q))
  {
    MonitorMoves(Get(s.sems, q), t, c);
    LabelFits(Get(s.sems, q), t, c);
  }

  lemma EnterAttuned(s: System, q: Sem, t: nat, c: M.Choice)
    requires Sized(s) && Monitors(s.sems) && Attuned(s) && t < |s.inside| && M.Fires(Get(s.sems, q), t, c) && At(s, q, t, c)
    ensures Sized(Enter(s, q, t, c)) && Attuned(Enter(s, q, t, c))
  {
    var s' := Enter(s, q, t, c);
    EnterMonitors(s, q, t, c);
    EnterOwn(s, q, t, c);
    MonitorMoves(Get(s.sems, q), t, c);
    forall u, r | 0 <= u < |s'.inside|
      ensures Fits(CallAt(s'.prog, u), s'.inside[u], r, M.StatusOf(Get(s'.sems, r).pc[u]))
    {
      GetPut(s.sems, q, M.After(Get(s.sems, q), t, c), r);
      assert Fits(CallAt(s.prog, u), s.inside[u], r, M.StatusOf(Get(s.sems, r).pc[u]));
      if u != t { PassedCalls(s.prog, t, u); }
    }
  }

  /** Steps inside a monitor are invisible, except the one that changes the value. */
  lemma EnterAbs(s: System, q: Sem, t: nat, c: M.Choice)
    requires t < |s.inside| && t < Threads(s.prog) && M.Inv(Get(s.sems, q)) && M.Fires(Get(s.sems, q), t, c)
    requires M.LabelOf(Get(s.sems, q), t, c).Take? ==> CallAt(s.prog, t) == Wait(q)
    requires M.LabelOf(Get(s.sems, q), t, c).Add? ==> CallAt(s.prog, t) == Post(q)
    ensures var s', m := Enter(s, q, t, c), MoveOf(s.prog, t);
      if Effective(Get(s.sems, q), t, c) then B.Fires(Abs(s), m) && Abs(s') == B.After(Abs(s), m) else Abs(s') == Abs(s)
  {
    MonitorMoves(Get(s.sems, q), t, c);
    var s', l := Enter(s, q, t, c), M.LabelOf(Get(s.sems, q), t, c);
    assert Abs(s') == Changed(if Effective(Get(s.sems, q), t, c) then Passed(Abs(s), t) else Abs(s), q, Shift(l));
    Passes(Abs(s), t);
    assert CallAt(Abs(s), t) == CallAt(s.prog, t) && MoveOf(Abs(s), t) == MoveOf(s.prog, t);
    assert Value(Abs(s), q) == Get(s.sems, q).value;
  }

  lemma EnterKeeps(s: System, q: Sem, t: nat, c: M.Choice)
    requires Inv(s) && t < |s.inside| && M.Fires(Get(s.sems, q), t, c) && At(s, q, t, c)
    ensures var s', m := Enter(s, q, t, c), MoveOf(s.prog, t);
      && Inv(s')
      && if Effective(Get(s.sems, q), t, c) then B.Fires(Abs(s), m) && Abs(s') == B.After(Abs(s), m) else Abs(s') == Abs(s)
  {
    EnterMonitors(s, q, t, c);
    EnterOwn(s, q, t, c);
    EnterAttuned(s, q, t, c);
    EnterAbs(s, q, t, c);
    if Effective(Get(s.sems, q), t, c) {
      B.StepKeepsInv(Abs(s), MoveOf(s.prog, t));
    }
  }

  lemma DataKeeps(s: System, t: nat)
    requires Inv(s) && t < |s.inside| && s.inside[t].None? && CallAt(s.prog, t).Data? && B.Fires(s.prog, MoveOf(s.prog, t))
    ensures var s', m := s.(prog := B.After(s.prog, MoveOf(s.prog, t))), MoveOf(s.prog, t);
      Inv(s') && B.Fires(Abs(s), m) && Abs(s') == B.After(Abs(s), m)
  {
    var s' := s.(prog := B.After(s.prog, MoveOf(s.prog, t)));
    DataStep(s, t);
    B.StepKeepsInv(Abs(s), MoveOf(s.prog, t));
    forall u, r | 0 <= u < |s'.inside|
      ensures Fits(CallAt(s'.prog, u), s'.inside[u], r, M.StatusOf(Get(s'.sems, r).pc[u]))
    {
      assert Fits(CallAt(s.prog, u), s.inside[u], r, M.StatusOf(Get(s.sems, r).pc[u]));
    }
  }

  /** Every step keeps the invariant and is a step of the buffer with atomic
      semaphores, or leaves that buffer as it is. */
  lemma StepRefines(s: System, t: nat, c: M.Choice)
    requires Inv(s) && Fires(s, t, c)
    ensures var s', m := After(s, t, c), MoveOf(s.prog, t);
      && Inv(s')
      && if Visible(s, t, c) then B.Fires(Abs(s), m) && Abs(s') == B.After(Abs(s), m) else Abs(s') == Abs(s)
  {
    if s.inside[t].Some? {
      EnterKeeps(s, s.inside[t].value, t, c);
    } else if CallAt(s.prog, t).Data? {
      DataKeeps(s, t);
    } else {
      var q := CallAt(s.prog, t).q;
      EnterKeeps(s, q, t, c);
      assert Fits(CallAt(s.prog, t), s.inside[t], q, M.StatusOf(Get(s.sems, q).pc[t]));
      LabelFits(Get(s.sems, q), t, c);
    }
  }
}
