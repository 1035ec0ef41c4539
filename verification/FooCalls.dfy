/** What the calls of the reference-counted tables return: every return of a run
    of either version goes back to its call, and to one moment in between at
    which the call took effect and at which the returned value is right. */
module FooCalls {
  import opened Basics
  import opened FooSpec
  import opened FooTable
  import opened FooInvariant
  import opened FooSimulation
  import opened FooStep
  import opened FooTheorems

  // ---------- runs of the specification ----------

  /** The state of the specification before step `i`. */
  function SpecAt(a: Spec, labels: seq<SpecLabel>, i: nat): Spec
    requires SpecRuns(a, labels) && i <= |labels|
    decreases i
  {
    if i == 0 then a else SpecAt(SpecAfter(a, labels[0]), labels[1..], i - 1)
  }

  lemma {:induction false} SpecNext(a: Spec, labels: seq<SpecLabel>, i: nat)
    requires SpecRuns(a, labels) && i < |labels|
    ensures SpecFires(SpecAt(a, labels, i), labels[i])
    ensures SpecAt(a, labels, i + 1) == SpecAfter(SpecAt(a, labels, i), labels[i])
    decreases i
  {
    if i > 0 {
      SpecNext(SpecAfter(a, labels[0]), labels[1..], i - 1);
    }
  }

  /** A thread in a hold or release owns the reference it was called with. */
  ghost predicate CallersOwn(a: Spec) {
    forall u | 0 <= u < |a.status| && a.status[u].Called? :: OwnsArgument(a, u, a.status[u].op)
  }

  ghost predicate OwnsArgument(a: Spec, u: Tid, op: Op) {
    op.Hold? || op.Rele? ==> op.tok in a.ledger && a.ledger[op.tok].holder == u
  }

  lemma CallersOwnStep(a: Spec, l: SpecLabel)
    requires CallersOwn(a) && SpecFires(a, l)
    ensures CallersOwn(SpecAfter(a, l)) && |SpecAfter(a, l).status| == |a.status|
  {
    var a' := SpecAfter(a, l);
    forall u | 0 <= u < |a'.status| && a'.status[u].Called? ensures OwnsArgument(a', u, a'.status[u].op) {
      if !(l.Call? && l.t == u) {
        assert a'.status[u] == a.status[u] && OwnsArgument(a, u, a.status[u].op);
        if l.Commit? { assert OwnsArgument(a, l.t, a.status[l.t].op); }
      }
    }
  }

  lemma {:induction false} SpecAtInv(a: Spec, labels: seq<SpecLabel>, i: nat)
    requires SpecInv(a) && CallersOwn(a) && SpecRuns(a, labels) && i <= |labels|
    ensures SpecInv(SpecAt(a, labels, i)) && CallersOwn(SpecAt(a, labels, i)) && |SpecAt(a, labels, i).status| == |a.status|
    decreases i
  {
    if i > 0 {
      SpecAtInv(a, labels, i - 1);
      SpecNext(a, labels, i - 1);
      SpecKeepsInv(SpecAt(a, labels, i - 1), labels[i - 1]);
      CallersOwnStep(SpecAt(a, labels, i - 1), labels[i - 1]);
    }
  }

  ghost predicate StatusFrom(a: Spec, labels: seq<SpecLabel>, t: Tid, i: nat, k: nat, st: Status)
    requires SpecRuns(a, labels) && k <= |labels|
  {
    forall j | i < j <= k :: t < |SpecAt(a, labels, j).status| && SpecAt(a, labels, j).status[t] == st
  }

  /** The last step that changed the status of a thread. */
  lemma {:induction false} LastChange(a: Spec, labels: seq<SpecLabel>, t: Tid, k: nat, st: Status) returns (i: nat)
    requires SpecInv(a) && CallersOwn(a) && SpecRuns(a, labels) && k <= |labels| && t < |a.status|
    requires t < |SpecAt(a, labels, k).status| && SpecAt(a, labels, k).status[t] == st && a.status[t] != st
    ensures i < k && StatusFrom(a, labels, t, i, k, st)
    ensures t < |SpecAt(a, labels, i).status| && SpecAt(a, labels, i).status[t] != st
    decreases k
  {
    assert k > 0;
    SpecAtInv(a, labels, k - 1);
    if SpecAt(a, labels, k - 1).status[t] == st {
      i := LastChange(a, labels, t, k - 1, st);
    } else {
      i := k - 1;
    }
  }

  /** Who changes a status, and how. */
  lemma StatusChange(a: Spec, l: SpecLabel, t: Tid)
    requires SpecFires(a, l) && t < |a.status| && t < |SpecAfter(a, l).status| && SpecAfter(a, l).status[t] != a.status[t]
    ensures var st := SpecAfter(a, l).status[t];
      && (st.Called? ==> l == Call(t, st.op))
      && (st.Done? ==> l.Commit? && l.t == t && a.status[t].Called?)
  {
  }

  /** The caller owns a reference to `x`, which is in the table with the id. */
  ghost predicate Owned(a: Spec, t: Tid, x: Ref, id: int) {
    HasId(a, x, id) && exists k :: k in a.ledger && a.ledger[k] == Loan(t, x)
  }

  /** A thread whose call has taken effect keeps its references until it returns. */
  lemma OwnedStep(a: Spec, l: SpecLabel, t: Tid, x: Ref, id: int)
    requires SpecInv(a) && CallersOwn(a) && SpecFires(a, l) && t < |a.status| && a.status[t].Done? && Owned(a, t, x, id)
    ensures Owned(SpecAfter(a, l), t, x, id)
  {
    var a' := SpecAfter(a, l);
    var k :| k in a.ledger && a.ledger[k] == Loan(t, x);
    if l.Commit? {
      assert OwnsArgument(a, l.t, a.status[l.t].op);
      assert k in a'.ledger && a'.ledger[k] == Loan(t, x);
      assert k in Tokens(a'.ledger, x);
    } else {
      assert k in a'.ledger && a'.ledger[k] == Loan(t, x);
    }
  }

  lemma {:induction false} OwnedUntil(a: Spec, labels: seq<SpecLabel>, t: Tid, i: nat, k: nat, res: Option<Ref>, x: Ref, id: int)
    requires SpecInv(a) && CallersOwn(a) && SpecRuns(a, labels) && i < k <= |labels| && t < |a.status|
    requires StatusFrom(a, labels, t, i, k, Done(res)) && Owned(SpecAt(a, labels, i + 1), t, x, id)
    ensures Owned(SpecAt(a, labels, k), t, x, id)
    decreases k
  {
    if k > i + 1 {
      OwnedUntil(a, labels, t, i, k - 1, res, x, id);
      SpecAtInv(a, labels, k - 1);
      SpecNext(a, labels, k - 1);
      OwnedStep(SpecAt(a, labels, k - 1), labels[k - 1], t, x, id);
    }
  }

  lemma GainsOwned(op: Op, a: Spec, a': Spec, t: Tid, res: Option<Ref>)
    requires Answers(op, a, a', t, res) && (op.Alloc? || op.Find?) && res.Some?
    ensures Owned(a', t, res.value, op.id)
  {
    assert Gains(a, a', t, res.value);
    var k: Token :| k !in a.ledger && a'.ledger == a.ledger[k := Loan(t, res.value)];
    assert a'.ledger[k] == Loan(t, res.value);
  }

  /** The call at step `h` took effect at step `i`, when `res` was right, and the thread did nothing else since. */
  ghost predicate Answered(a: Spec, labels: seq<SpecLabel>, t: Tid, op: Op, h: nat, i: nat, res: Option<Ref>)
    requires SpecRuns(a, labels)
  {
    && h < i < |labels| && labels[h] == Call(t, op) && labels[i].Commit? && labels[i].t == t
    && StatusFrom(a, labels, t, h, i, Called(op)) && StatusFrom(a, labels, t, i, |labels|, Done(res))
    && Answers(op, SpecAt(a, labels, i), SpecAt(a, labels, i + 1), t, res)
    && (op.Alloc? ==> (res.None? <==> !labels[i].ok))
  }

  lemma {:induction false} SpecAnswered(n: nat, labels: seq<SpecLabel>, t: Tid, res: Option<Ref>) returns (op: Op, h: nat, i: nat)
    requires SpecRuns(SpecInit(n), labels) && t < n
    requires t < |SpecAt(SpecInit(n), labels, |labels|).status| && SpecAt(SpecInit(n), labels, |labels|).status[t] == Done(res)
    ensures Answered(SpecInit(n), labels, t, op, h, i, res)
    ensures (op.Alloc? || op.Find?) && res.Some? ==> Owned(SpecAt(SpecInit(n), labels, |labels|), t, res.value, op.id)
  {
    var a := SpecInit(n);
    i := LastChange(a, labels, t, |labels|, Done(res));
    SpecNext(a, labels, i);
    SpecAtInv(a, labels, i);
    StatusChange(SpecAt(a, labels, i), labels[i], t);
    CommitAnswers(SpecAt(a, labels, i), labels[i]);
    op := SpecAt(a, labels, i).status[t].op;
    h := LastChange(a, labels, t, i, Called(op));
    SpecNext(a, labels, h);
    StatusChange(SpecAt(a, labels, h), labels[h], t);
    if (op.Alloc? || op.Find?) && res.Some? {
      GainsOwned(op, SpecAt(a, labels, i), SpecAt(a, labels, i + 1), t, res);
      OwnedUntil(a, labels, t, i, |labels|, res, res.value, op.id);
    }
  }

  // ---------- runs of the programs ----------

  /** The machine before step `i` of a run. */
  function At(s: Machine, moves: seq<Move>, i: nat): Machine
    requires Runs(s, moves) && i <= |moves|
    decreases i
  {
    if i == 0 then s else At(After(s, moves[0].t, moves[0].c), moves[1..], i - 1)
  }

  lemma {:induction false} AtEnd(s: Machine, moves: seq<Move>)
    requires Runs(s, moves)
    ensures At(s, moves, |moves|) == End(s, moves) && |Labels(s, moves)| == |moves|
    decreases |moves|
  {
    if moves != [] {
      AtEnd(After(s, moves[0].t, moves[0].c), moves[1..]);
    }
  }

  lemma {:induction false} MachineNext(s: Machine, moves: seq<Move>, i: nat)
    requires Runs(s, moves) && i < |moves| == |Labels(s, moves)|
    ensures Fires(At(s, moves, i), moves[i].t, moves[i].c)
    ensures At(s, moves, i + 1) == After(At(s, moves, i), moves[i].t, moves[i].c)
    ensures Labels(s, moves)[i] == LabelOf(At(s, moves, i), moves[i].t, moves[i].c)
    decreases i
  {
    if i > 0 {
      MachineNext(After(s, moves[0].t, moves[0].c), moves[1..], i - 1);
    }
  }

  /** The machine and the specification go along with each other. */
  lemma {:induction false} Along(s: Machine, a: Spec, moves: seq<Move>, i: nat)
    requires Inv(s, a) && Runs(s, moves) && SpecRuns(a, Labels(s, moves)) && i <= |moves| == |Labels(s, moves)|
    ensures Inv(At(s, moves, i), SpecAt(a, Labels(s, moves), i))
    decreases i
  {
    if i > 0 {
      var last := i - 1;
      Along(s, a, moves, last);
      MachineNext(s, moves, last);
      SpecNext(a, Labels(s, moves), last);
      StepKeepsInv(At(s, moves, last), SpecAt(a, Labels(s, moves), last), moves[last].t, moves[last].c);
    }
  }

  predicate MallocFails(s: Machine, t: Tid, c: Choice) {
    t < |s.pc| && s.pc[t].AMalloc? && c.Go? && c.fail
  }

  lemma LabelTells(s: Machine, t: Tid, c: Choice)
    requires Fires(s, t, c)
    ensures var l := LabelOf(s, t, c);
      && (l.Call? ==> l.t == t && c == Invoke(l.op))
      && (l.Commit? ==> l.t == t && (l.ok || MallocFails(s, t, c) || s.pc[t].FScan?))
      && (MallocFails(s, t, c) ==> l.Commit? && !l.ok)
  {
  }

  /** A call that has returned but for handing over its value. */
  ghost predicate Returning(s: Machine, t: Tid, res: Option<Ref>) {
    t < |s.pc| && s.pc[t] == Return(res)
  }

  /** The thread owns a reference to `x`, which is allocated and has the id. */
  ghost predicate Holds(s: Machine, t: Tid, x: Ref, id: int) {
    x in s.heap && s.heap[x].id == id && exists k :: k in s.ledger && s.ledger[k] == Loan(t, x)
  }

  lemma OwnedIsHeld(s: Machine, a: Spec, t: Tid, x: Ref, id: int)
    requires Inv(s, a) && Owned(a, t, x, id)
    ensures Holds(s, t, x, id)
  {
    assert x in a.order;
  }

  lemma ReturningDone(s: Machine, a: Spec, t: Tid, res: Option<Ref>)
    requires Known(a) && |s.pc| == |a.status| && LocalInv(s, a) && Returning(s, t, res)
    ensures a.status[t] == Done(res)
  {
    assert Local(s.ver, a, t, s.pc[t]);
  }

  lemma AllocOutcome(s: Machine, a: Spec, t: Tid, c: Choice)
    requires Known(a) && |s.pc| == |a.status| && LocalInv(s, a) && Fires(s, t, c)
    requires a.status[t].Called? && a.status[t].op.Alloc? && LabelOf(s, t, c).Commit?
    ensures LabelOf(s, t, c).ok <==> !MallocFails(s, t, c)
  {
    assert Local(s.ver, a, t, s.pc[t]);
    LabelTells(s, t, c);
  }

  /** No object that anybody holds a reference to has the id. */
  ghost predicate Absent(s: Machine, id: int) {
    forall k | k in s.ledger :: s.ledger[k].ref in s.heap && s.heap[s.ledger[k].ref].id != id
  }

  lemma MissingIsAbsent(s: Machine, a: Spec, id: int)
    requires Inv(s, a) && forall x | x in a.order :: !HasId(a, x, id)
    ensures Absent(s, id)
  {
    forall k | k in s.ledger ensures s.ledger[k].ref in s.heap && s.heap[s.ledger[k].ref].id != id {
      assert s.ledger[k].ref in a.order;
    }
  }

  lemma Outcome(s: Machine, a: Spec, a': Spec, t: Tid, c: Choice, op: Op, res: Option<Ref>)
    requires Inv(s, a) && Fires(s, t, c) && a.status[t] == Called(op) && LabelOf(s, t, c).Commit?
    requires Answers(op, a, a', t, res) && (op.Alloc? ==> (res.None? <==> !LabelOf(s, t, c).ok))
    ensures op.Alloc? ==> (res.None? <==> MallocFails(s, t, c))
    ensures op.Find? && res.None? ==> Absent(s, op.id)
  {
    if op.Alloc? {
      AllocOutcome(s, a, t, c);
    } else if op.Find? && res.None? {
      MissingIsAbsent(s, a, op.id);
    }
  }

  /** Every return of a run of either version: the thread made the call at step
      `h`, it took effect at step `i` on the table as it then was, which is the
      table in memory, and the value about to be returned is right for that
      moment.  When it is an object, it is still allocated, it has the id asked
      for, and the caller holds a reference to it.  When it is NULL, malloc failed
      or nobody held a reference to an object with the id. */
  lemma {:induction false} CallAnswered(v: Version, n: nat, moves: seq<Move>, t: Tid, res: Option<Ref>)
    returns (op: Op, h: nat, i: nat, labels: seq<SpecLabel>)
    requires Runs(Init(v, n), moves) && Returning(End(Init(v, n), moves), t, res)
    ensures SpecRuns(SpecInit(n), labels) && |labels| == |moves| && Answered(SpecInit(n), labels, t, op, h, i, res)
    ensures moves[h].t == t && moves[h].c == Invoke(op) && moves[i].t == t
    ensures Inv(At(Init(v, n), moves, i), SpecAt(SpecInit(n), labels, i))
    ensures (op.Alloc? || op.Find?) && res.Some? ==> Holds(End(Init(v, n), moves), t, res.value, op.id)
    ensures op.Alloc? ==> (res.None? <==> MallocFails(At(Init(v, n), moves, i), t, moves[i].c))
    ensures op.Find? && res.None? ==> Absent(At(Init(v, n), moves, i), op.id)
  {
    var s, a := Init(v, n), SpecInit(n);
    labels := Labels(s, moves);
    InitInv(v, n);
    RefinesFrom(s, a, moves);
    AtEnd(s, moves);
    Along(s, a, moves, |moves|);
    ReturningDone(End(s, moves), SpecAt(a, labels, |moves|), t, res);
    RunKeepsThreads(s, moves);
    op, h, i := SpecAnswered(n, labels, t, res);
    MachineNext(s, moves, h);
    MachineNext(s, moves, i);
    Along(s, a, moves, i);
    LabelTells(At(s, moves, h), moves[h].t, moves[h].c);
    LabelTells(At(s, moves, i), moves[i].t, moves[i].c);
    if (op.Alloc? || op.Find?) && res.Some? {
      OwnedIsHeld(End(s, moves), SpecAt(a, labels, |moves|), t, res.value, op.id);
    }
    Outcome(At(s, moves, i), SpecAt(a, labels, i), SpecAt(a, labels, i + 1), t, moves[i].c, op, res);
  }
}
