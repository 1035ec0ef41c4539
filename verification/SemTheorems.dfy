/** What holds of every run of the semaphore set, and the two ways in which a
    run can leave those bounds. */
module SemTheorems {
  import opened Basics
  import opened SemLifecycle

  datatype Step = Step(p: Pid, act: Action)

  predicate Runs(s: Kernel, steps: seq<Step>)
    decreases |steps|
  {
    steps == [] || (Fires(s, steps[0].p, steps[0].act) && Runs(After(s, steps[0].p, steps[0].act), steps[1..]))
  }

  function End(s: Kernel, steps: seq<Step>): Kernel
    requires Runs(s, steps)
    decreases |steps|
  {
    if steps == [] then s else End(After(s, steps[0].p, steps[0].act), steps[1..])
  }

  /** At every moment of the run at most `bound` references are outstanding. */
  ghost predicate StaysWithin(s: Kernel, steps: seq<Step>, bound: nat)
    requires Runs(s, steps)
    decreases |steps|
  {
    References(s) <= bound && (steps != [] ==> StaysWithin(After(s, steps[0].p, steps[0].act), steps[1..], bound))
  }

  predicate NoOpens(steps: seq<Step>) {
    forall i | 0 <= i < |steps| :: !steps[i].act.Open?
  }

  lemma {:induction false} RunKeepsInv(s: Kernel, steps: seq<Step>)
    requires Inv(s) && Runs(s, steps) && StaysWithin(s, steps, BIGCOUNT - 1)
    ensures Inv(End(s, steps))
    decreases |steps|
  {
    if steps != [] {
      StepKeepsInv(s, steps[0].p, steps[0].act);
      RunKeepsInv(After(s, steps[0].p, steps[0].act), steps[1..]);
    }
  }

  ghost predicate ReachableWithin(n: nat, bound: nat, s: Kernel) {
    exists steps :: Runs(Init(n), steps) && StaysWithin(Init(n), steps, bound) && End(Init(n), steps) == s
  }

  /** By a run with fewer than BIGCOUNT references at every moment. */
  ghost predicate Reachable(n: nat, s: Kernel) {
    ReachableWithin(n, BIGCOUNT - 1, s)
  }

  lemma ReachableInv(n: nat, s: Kernel)
    requires Reachable(n, s)
    ensures Inv(s)
  {
    var steps :| Runs(Init(n), steps) && StaysWithin(Init(n), steps, BIGCOUNT - 1) && End(Init(n), steps) == s;
    InitInv(n);
    RunKeepsInv(Init(n), steps);
  }

  // ---------- the lock, member [2] ----------

  /** Member [2] is 0 or 1, and is 1 exactly when one live process is inside a
      locked section; that process never sees its set vanish. */
  lemma LockIsExact(n: nat, s: Kernel)
    requires Reachable(n, s) && s.live.Some?
    ensures s.v2 == 0 || s.v2 == 1
    ensures s.v2 == 1 <==> exists p | 0 <= p < |s.procs| :: Locked(s.procs[p].pc)
    ensures forall p, u | 0 <= p < |s.procs| && 0 <= u < |s.procs| && Locked(s.procs[p].pc) && Locked(s.procs[u].pc) :: p == u
    ensures forall p | 0 <= p < |s.procs| && Locked(s.procs[p].pc) :: s.live == Some(s.procs[p].pc.id)
  {
    ReachableInv(n, s);
    forall p, u | 0 <= p < |s.procs| && 0 <= u < |s.procs| && Locked(s.procs[p].pc) && Locked(s.procs[u].pc)
      ensures p == u
    {
      if p != u { OneHolder(s, p, u); }
    }
    forall p | 0 <= p < |s.procs| && Locked(s.procs[p].pc)
      ensures s.v2 == 1 && s.live == Some(s.procs[p].pc.id)
    {
      TotalAtLeast(s.procs, p, InLock());
      assert ProcInv(s, s.procs[p]);
    }
    if s.v2 == 1 {
      var p := TotalWitness(s.procs, InLock());
    }
  }

  /** A lock holder is inside the live set even when the whole key was removed meanwhile. */
  lemma LockHolderKeepsSet(n: nat, s: Kernel, p: Pid)
    requires Reachable(n, s) && p < |s.procs| && Locked(s.procs[p].pc)
    ensures s.live == Some(s.procs[p].pc.id)
  {
    ReachableInv(n, s);
    assert ProcInv(s, s.procs[p]);
  }

  // ---------- the process counter, member [1] ----------

  /** Member [1] is 0 before initialisation and BIGCOUNT minus the number of
      references held by live processes afterwards; `sem[1] > BIGCOUNT` never happens. */
  lemma CounterIsExact(n: nat, s: Kernel)
    requires Reachable(n, s)
    ensures s.live.Some? ==> s.v1 == if s.ready then BIGCOUNT - References(s) else 0
    ensures s.live.Some? ==> (s.ready <==> s.v1 > 0) && (References(s) > 0 ==> s.ready) && 0 <= s.v1 <= BIGCOUNT
    ensures forall p | 0 <= p < |s.procs| :: !s.procs[p].pc.Dumped?
    ensures forall p | 0 <= p < |s.procs| && s.procs[p].pc.Dead? :: s.procs[p].refs == map[]
  {
    ReachableInv(n, s);
    if s.live.Some? {
      TotalNonNegative(s.procs, RefsTo(s.live.value));
    }
    forall p | 0 <= p < |s.procs| ensures ProcInv(s, s.procs[p]) {}
  }

  /** SETVAL of the counter runs only while nobody holds a reference, and
      discards no recorded adjustment of that member. */
  lemma SetvalForgetsNothing(n: nat, s: Kernel, p: Pid, act: Action)
    requires Reachable(n, s) && Fires(s, p, act) && SetsCount(s, p, act)
    ensures forall u | 0 <= u < |s.procs| :: Held(s.procs[u], s.live.value) == 0 && s.procs[u].adj1 == 0
  {
    ReachableInv(n, s);
    assert ProcInv(s, s.procs[p]);
    forall u | 0 <= u < |s.procs| ensures Held(s.procs[u], s.live.value) == 0 && s.procs[u].adj1 == 0 {
      assert ProcInv(s, s.procs[u]);
      NoReferences(s, u);
    }
  }

  /** Once the counter is set, no create initialises the set again: until the set
      is removed the counter stays positive, member [0] keeps its value, and
      neither SETVAL can run. */
  lemma InitialisedOnce(n: nat, s: Kernel, p: Pid, act: Action)
    requires Reachable(n, s) && Fires(s, p, act) && Roomy(After(s, p, act)) && s.live.Some? && s.ready
    ensures var s' := After(s, p, act);
      Removes(s, p, act) || (s'.live == s.live && s'.ready && s'.v0 == s.v0 && s'.v1 > 0)
    ensures !SetsCount(s, p, act) && !s.procs[p].pc.CSetvalue?
  {
    ReachableInv(n, s);
    assert ProcInv(s, s.procs[p]);
    StepKeepsInv(s, p, act);
  }

  /** Exit applies its adjustments exactly: the kernel never has to clamp at zero. */
  lemma ExitNeverClamps(n: nat, s: Kernel, p: Pid)
    requires Reachable(n, s) && p < |s.procs| && s.live.Some?
    ensures s.v1 + s.procs[p].adj1 >= 0 && s.v2 + s.procs[p].adj2 >= 0
  {
    ReachableInv(n, s);
    assert ProcInv(s, s.procs[p]);
    TotalAtLeast(s.procs, p, RefsTo(s.live.value));
    TotalAtLeast(s.procs, p, InLock());
  }

  // ---------- clients that only create and close ----------

  ghost predicate ClosedProc(s: Kernel, q: Proc) {
    && !q.pc.OGet? && !q.pc.ODecrement?
    && (q.pc.XRemove? ==> References(s) == 0)
    && (forall id | id in q.refs && q.refs[id] > 0 :: s.live == Some(id))
  }

  ghost predicate ClosedInv(s: Kernel) {
    forall p | 0 <= p < |s.procs| :: ClosedProc(s, s.procs[p])
  }

  /** Where the reference count moves: only at the end of create, in close, and at exit. */
  lemma ReferencesMove(s: Kernel, p: Pid, act: Action)
    requires Inv(s) && Fires(s, p, act) && Roomy(After(s, p, act)) && s.live.Some? && !Removes(s, p, act)
    ensures var s' := After(s, p, act);
      && s'.live == s.live
      && References(s') == References(s) - Held(s.procs[p], s.live.value) + Held(s'.procs[p], s.live.value)
  {
    var s' := After(s, p, act);
    if SetsCount(s, p, act) {
      TotalSame(s.procs, s'.procs, RefsTo(s.live.value));
    } else {
      TotalUpdate(s.procs, p, s'.procs[p], RefsTo(s.live.value));
    }
  }

  lemma ClosedStep(s: Kernel, p: Pid, act: Action)
    requires Inv(s) && ClosedInv(s) && Fires(s, p, act) && Roomy(After(s, p, act)) && !act.Open?
    ensures ClosedInv(After(s, p, act))
  {
    var s' := After(s, p, act);
    var q := s.procs[p];
    assert ProcInv(s, q) && ClosedProc(s, q);
    forall u | 0 <= u < |s'.procs| ensures ClosedProc(s', s'.procs[u]) {
      assert ProcInv(s, s.procs[u]) && ClosedProc(s, s.procs[u]);
      if Removes(s, p, act) {
        NoReferences(s, u);
        if u != p { OneHolder(s, p, u); }
      } else if s.live.Some? {
        ReferencesMove(s, p, act);
        if u != p {
          ClosedOther(s, p, act, u);
        } else {
          ClosedOwn(s, p, act);
        }
      }
    }
  }

  /** A process about to remove the set is not overtaken by a new reference. */
  lemma ClosedOther(s: Kernel, p: Pid, act: Action, u: Pid)
    requires Inv(s) && ClosedInv(s) && Fires(s, p, act) && Roomy(After(s, p, act)) && !act.Open?
    requires s.live.Some? && !Removes(s, p, act) && u < |s.procs| && u != p
    ensures ClosedProc(After(s, p, act), After(s, p, act).procs[u])
  {
    var s' := After(s, p, act);
    assert ProcInv(s, s.procs[u]) && ClosedProc(s, s.procs[u]) && ProcInv(s, s.procs[p]) && ClosedProc(s, s.procs[p]);
    ReferencesMove(s, p, act);
    if s.procs[u].pc.XRemove? {
      OneHolder(s, u, p);
      NoReferences(s, p);
      TotalAtLeast(s.procs, u, InLock());
      assert Held(s'.procs[p], s.live.value) == 0;
    }
  }

  lemma ClosedOwn(s: Kernel, p: Pid, act: Action)
    requires Inv(s) && ClosedInv(s) && Fires(s, p, act) && Roomy(After(s, p, act)) && !act.Open?
    requires s.live.Some? && !Removes(s, p, act)
    ensures ClosedProc(After(s, p, act), After(s, p, act).procs[p])
  {
    assert ProcInv(s, s.procs[p]) && ClosedProc(s, s.procs[p]);
    ReferencesMove(s, p, act);
  }

  lemma {:induction false} ClosedRun(s: Kernel, steps: seq<Step>)
    requires Inv(s) && ClosedInv(s) && Runs(s, steps) && StaysWithin(s, steps, BIGCOUNT - 1) && NoOpens(steps)
    ensures Inv(End(s, steps)) && ClosedInv(End(s, steps))
    decreases |steps|
  {
    if steps != [] {
      StepKeepsInv(s, steps[0].p, steps[0].act);
      ClosedStep(s, steps[0].p, steps[0].act);
      assert NoOpens(steps[1..]);
      ClosedRun(After(s, steps[0].p, steps[0].act), steps[1..]);
    }
  }

  ghost predicate ClosedReachable(n: nat, s: Kernel) {
    exists steps ::
      Runs(Init(n), steps) && StaysWithin(Init(n), steps, BIGCOUNT - 1) && NoOpens(steps) && End(Init(n), steps) == s
  }

  lemma ClosedReachableInv(n: nat, s: Kernel)
    requires ClosedReachable(n, s)
    ensures Inv(s) && ClosedInv(s)
  {
    var steps :|
      Runs(Init(n), steps) && StaysWithin(Init(n), steps, BIGCOUNT - 1) && NoOpens(steps) && End(Init(n), steps) == s;
    InitInv(n);
    assert ClosedInv(Init(n));
    ClosedRun(Init(n), steps);
  }

  /** Clients that only create and close: a set is removed only when nobody
      references it, and every reference is to the live set, so no close fails. */
  lemma RemovedOnlyUnreferenced(n: nat, s: Kernel)
    requires ClosedReachable(n, s)
    ensures forall p: Pid, act | Fires(s, p, act) && Removes(s, p, act) ::
      forall u | 0 <= u < |s.procs| :: Held(s.procs[u], s.live.value) == 0
    ensures forall u: Pid, id: Id | 0 <= u < |s.procs| && Held(s.procs[u], id) > 0 :: s.live == Some(id)
  {
    ClosedReachableInv(n, s);
    forall p: Pid, act | Fires(s, p, act) && Removes(s, p, act)
      ensures forall u | 0 <= u < |s.procs| :: Held(s.procs[u], s.live.value) == 0
    {
      assert ClosedProc(s, s.procs[p]);
      forall u | 0 <= u < |s.procs| ensures Held(s.procs[u], s.live.value) == 0 {
        NoReferences(s, u);
      }
    }
    forall u: Pid, id: Id | 0 <= u < |s.procs| && Held(s.procs[u], id) > 0 ensures s.live == Some(id) {
      assert ClosedProc(s, s.procs[u]);
    }
  }

  /** With any clients, a removal leaves somebody with a reference exactly when
      the counter, BIGCOUNT when the closer read it, has been decremented since. */
  lemma OrphansExactlyWhen(n: nat, s: Kernel, p: Pid, act: Action)
    requires Reachable(n, s) && Fires(s, p, act) && Removes(s, p, act)
    ensures (exists u | 0 <= u < |s.procs| :: Held(s.procs[u], s.live.value) > 0) <==> s.v1 < BIGCOUNT
  {
    ReachableInv(n, s);
    assert ProcInv(s, s.procs[p]);
    var refs := RefsTo(s.live.value);
    TotalNonNegative(s.procs, refs);
    if s.v1 < BIGCOUNT {
      var u := TotalWitness(s.procs, refs);
      assert Held(s.procs[u], s.live.value) > 0;
    } else {
      forall u | 0 <= u < |s.procs| ensures Held(s.procs[u], s.live.value) == 0 {
        NoReferences(s, u);
      }
    }
  }

  // ---------- where the bounds end ----------

  lemma {:induction false} RunsAppend(s: Kernel, steps: seq<Step>, p: Pid, act: Action)
    requires Runs(s, steps) && Fires(End(s, steps), p, act)
    ensures Runs(s, steps + [Step(p, act)])
    ensures End(s, steps + [Step(p, act)]) == After(End(s, steps), p, act)
    decreases |steps|
  {
    var more := steps + [Step(p, act)];
    if steps == [] {
      assert more[1..] == [];
    } else {
      assert more[1..] == steps[1..] + [Step(p, act)];
      RunsAppend(After(s, steps[0].p, steps[0].act), steps[1..], p, act);
    }
  }

  lemma {:induction false} WithinAppend(s: Kernel, steps: seq<Step>, p: Pid, act: Action, bound: nat)
    requires Runs(s, steps) && Fires(End(s, steps), p, act)
    requires StaysWithin(s, steps, bound) && References(After(End(s, steps), p, act)) <= bound
    ensures Runs(s, steps + [Step(p, act)])
    ensures StaysWithin(s, steps + [Step(p, act)], bound)
    decreases |steps|
  {
    var more := steps + [Step(p, act)];
    RunsAppend(s, steps, p, act);
    if steps == [] {
      assert more[1..] == [];
    } else {
      assert more[1..] == steps[1..] + [Step(p, act)];
      WithinAppend(After(s, steps[0].p, steps[0].act), steps[1..], p, act, bound);
    }
  }

  lemma {:induction false} WithinMore(s: Kernel, steps: seq<Step>, less: nat, bound: nat)
    requires Runs(s, steps) && StaysWithin(s, steps, less) && less <= bound
    ensures StaysWithin(s, steps, bound)
    decreases |steps|
  {
    if steps != [] {
      WithinMore(After(s, steps[0].p, steps[0].act), steps[1..], less, bound);
    }
  }

  lemma ReachableMore(n: nat, less: nat, bound: nat, s: Kernel)
    requires ReachableWithin(n, less, s) && less <= bound
    ensures ReachableWithin(n, bound, s)
  {
    var steps :| Runs(Init(n), steps) && StaysWithin(Init(n), steps, less) && End(Init(n), steps) == s;
    WithinMore(Init(n), steps, less, bound);
  }

  lemma ExtendWithin(n: nat, bound: nat, s: Kernel, p: Pid, act: Action)
    requires ReachableWithin(n, bound, s) && Fires(s, p, act) && References(After(s, p, act)) <= bound
    ensures ReachableWithin(n, bound, After(s, p, act))
  {
    var steps :| Runs(Init(n), steps) && StaysWithin(Init(n), steps, bound) && End(Init(n), steps) == s;
    RunsAppend(Init(n), steps, p, act);
    WithinAppend(Init(n), steps, p, act, bound);
  }

  /** One process that holds at most BIGCOUNT references. */
  lemma Extend(s: Kernel, act: Action, s': Kernel)
    requires ReachableWithin(1, BIGCOUNT, s) && Fires(s, 0, act) && s' == After(s, 0, act)
    requires |s'.procs| == 1 && forall id: Id :: Held(s'.procs[0], id) <= BIGCOUNT
    ensures ReachableWithin(1, BIGCOUNT, s')
  {
    if s'.live.Some? {
      TotalBound(s'.procs, RefsTo(s'.live.value), BIGCOUNT);
    }
    ExtendWithin(1, BIGCOUNT, s, 0, act);
  }

  /** Two processes that hold at most one reference each. */
  lemma ExtendRoomy(n: nat, s: Kernel, p: Pid, act: Action, s': Kernel)
    requires Reachable(n, s) && Fires(s, p, act) && s' == After(s, p, act)
    requires |s'.procs| == 2 && forall id: Id :: Held(s'.procs[0], id) <= 1 && Held(s'.procs[1], id) <= 1
    ensures Reachable(n, s')
  {
    if s'.live.Some? {
      TotalBound(s'.procs, RefsTo(s'.live.value), 1);
    }
    ExtendWithin(n, BIGCOUNT - 1, s, p, act);
  }

  /** The live set 0 with two processes, and with one. */
  function Pair(v1: int, v2: int, q: Proc, r: Proc): Kernel {
    Kernel(Some(0), 1, v1 > 0, 1, v1, v2, [q, r])
  }

  const Fresh: Proc := Proc(Out, 0, 0, map[])

  lemma RaceStarts()
    ensures Reachable(2, Kernel(Some(0), 1, false, 0, 0, 1, [Proc(CGetval(0, 1), 0, -1, map[]), Fresh]))
  {
    var s0 := Kernel(None, 0, false, 0, 0, 0, [Fresh, Fresh]);
    var s1 := Kernel(None, 0, false, 0, 0, 0, [Proc(CGet(1), 0, 0, map[]), Fresh]);
    var s2 := Kernel(Some(0), 1, false, 0, 0, 0, [Proc(CLock(0, 1, false), 0, 0, map[]), Fresh]);
    assert s0 == Init(2);
    assert Runs(Init(2), []) && StaysWithin(Init(2), [], BIGCOUNT - 1) && End(Init(2), []) == s0;
    ExtendRoomy(2, s0, 0, Create(1), s1);
    ExtendRoomy(2, s1, 0, Go(false), s2);
    ExtendRoomy(2, s2, 0, Go(false), Kernel(Some(0), 1, false, 0, 0, 1, [Proc(CGetval(0, 1), 0, -1, map[]), Fresh]));
  }

  lemma RaceCreates()
    ensures Reachable(2, Pair(BIGCOUNT, 1, Proc(CEnd(0), 0, -1, map[]), Fresh))
  {
    RaceStarts();
    var s3 := Kernel(Some(0), 1, false, 0, 0, 1, [Proc(CGetval(0, 1), 0, -1, map[]), Fresh]);
    var s4 := Kernel(Some(0), 1, false, 0, 0, 1, [Proc(CSetvalue(0, 1), 0, -1, map[]), Fresh]);
    var s5 := Pair(0, 1, Proc(CSetcount(0), 0, -1, map[]), Fresh);
    ExtendRoomy(2, s3, 0, Go(false), s4);
    ExtendRoomy(2, s4, 0, Go(false), s5);
    ExtendRoomy(2, s5, 0, Go(false), Pair(BIGCOUNT, 1, Proc(CEnd(0), 0, -1, map[]), Fresh));
  }

  lemma RaceHolds()
    ensures Reachable(2, Pair(BIGCOUNT - 1, 0, Proc(XLock(0), 1, 0, map[0 := 1]), Fresh))
  {
    RaceCreates();
    var s0 := Pair(BIGCOUNT, 1, Proc(CEnd(0), 0, -1, map[]), Fresh);
    var s1 := Pair(BIGCOUNT - 1, 0, Proc(Out, 1, 0, map[0 := 1]), Fresh);
    ExtendRoomy(2, s0, 0, Go(false), s1);
    ExtendRoomy(2, s1, 0, Close(0), Pair(BIGCOUNT - 1, 0, Proc(XLock(0), 1, 0, map[0 := 1]), Fresh));
  }

  lemma RaceCloses()
    ensures Reachable(2, Pair(BIGCOUNT, 1, Proc(XRemove(0), 0, -1, map[0 := 0]), Fresh))
  {
    RaceHolds();
    var s2 := Pair(BIGCOUNT - 1, 0, Proc(XLock(0), 1, 0, map[0 := 1]), Fresh);
    var s3 := Pair(BIGCOUNT, 1, Proc(XGetval(0), 0, -1, map[0 := 0]), Fresh);
    var one: map<Id, nat> := map[0 := 1];
    assert one[0 := 0] == map[0 := 0];
    ExtendRoomy(2, s2, 0, Go(false), s3);
    ExtendRoomy(2, s3, 0, Go(false), Pair(BIGCOUNT, 1, Proc(XRemove(0), 0, -1, map[0 := 0]), Fresh));
  }

  /** `sem_open` takes no lock: it can slip in between the last close reading the
      counter and removing the set, and is left with a reference to nothing. */
  lemma OpenCanLoseItsSet() returns (s: Kernel)
    ensures Reachable(2, s)
    ensures s.live.None? && |s.procs| == 2 && Held(s.procs[1], 0) == 1
  {
    RaceCloses();
    var closer := Proc(XRemove(0), 0, -1, map[0 := 0]);
    var s0 := Pair(BIGCOUNT, 1, closer, Fresh);
    var s1 := Pair(BIGCOUNT, 1, closer, Proc(OGet, 0, 0, map[]));
    var s2 := Pair(BIGCOUNT, 1, closer, Proc(ODecrement(0), 0, 0, map[]));
    var s3 := Pair(BIGCOUNT - 1, 1, closer, Proc(Out, 1, 0, map[0 := 1]));
    s := Kernel(None, 1, true, 1, BIGCOUNT - 1, 1, [Proc(Out, 0, 0, map[0 := 0]), Proc(Out, 0, 0, map[0 := 1])]);
    ExtendRoomy(2, s0, 1, Open, s1);
    ExtendRoomy(2, s1, 1, Go(false), s2);
    ExtendRoomy(2, s2, 1, Go(false), s3);
    ExtendRoomy(2, s3, 0, Go(false), s);
  }

  /** One process that holds `k` references, at a given point of a further create. */
  function Hoarder(k: nat, v1: int, v2: int, pc: Pc): Kernel {
    Kernel(Some(0), 1, k > 0 || v1 > 0, 0, v1, v2, [Proc(pc, if pc.CEnd? && v1 == BIGCOUNT then 0 else k, -v2, if k == 0 then map[] else map[0 := k])])
  }

  lemma FirstLock()
    ensures ReachableWithin(1, BIGCOUNT, Hoarder(0, 0, 1, CGetval(0, 0)))
  {
    var s0 := Kernel(None, 0, false, 0, 0, 0, [Fresh]);
    var s1 := Kernel(None, 0, false, 0, 0, 0, [Proc(CGet(0), 0, 0, map[])]);
    assert s0 == Init(1);
    assert Runs(Init(1), []) && StaysWithin(Init(1), [], BIGCOUNT) && End(Init(1), []) == s0;
    Extend(s0, Create(0), s1);
    Extend(s1, Go(false), Hoarder(0, 0, 0, CLock(0, 0, false)));
    Extend(Hoarder(0, 0, 0, CLock(0, 0, false)), Go(false), Hoarder(0, 0, 1, CGetval(0, 0)));
  }

  lemma FirstCreate()
    ensures ReachableWithin(1, BIGCOUNT, Hoarder(1, BIGCOUNT - 1, 0, Out))
  {
    FirstLock();
    Extend(Hoarder(0, 0, 1, CGetval(0, 0)), Go(false), Hoarder(0, 0, 1, CSetvalue(0, 0)));
    Extend(Hoarder(0, 0, 1, CSetvalue(0, 0)), Go(false), Hoarder(0, 0, 1, CSetcount(0)));
    Extend(Hoarder(0, 0, 1, CSetcount(0)), Go(false), Hoarder(0, BIGCOUNT, 1, CEnd(0)));
    Extend(Hoarder(0, BIGCOUNT, 1, CEnd(0)), Go(false), Hoarder(1, BIGCOUNT - 1, 0, Out));
  }

  lemma CreateLocks(k: nat)
    requires 1 <= k <= BIGCOUNT && ReachableWithin(1, BIGCOUNT, Hoarder(k, BIGCOUNT - k, 0, Out))
    ensures ReachableWithin(1, BIGCOUNT, Hoarder(k, BIGCOUNT - k, 1, CGetval(0, 0)))
  {
    var v := BIGCOUNT - k;
    Extend(Hoarder(k, v, 0, Out), Create(0), Hoarder(k, v, 0, CGet(0)));
    Extend(Hoarder(k, v, 0, CGet(0)), Go(false), Hoarder(k, v, 0, CLock(0, 0, false)));
    Extend(Hoarder(k, v, 0, CLock(0, 0, false)), Go(false), Hoarder(k, v, 1, CGetval(0, 0)));
  }

  lemma {:induction false} HoarderReachable(k: nat)
    requires 1 <= k <= BIGCOUNT
    ensures ReachableWithin(1, BIGCOUNT, Hoarder(k, BIGCOUNT - k, 0, Out))
  {
    if k == 1 {
      FirstCreate();
    } else {
      HoarderReachable(k - 1);
      CreateLocks(k - 1);
      CreateEnds(k - 1);
    }
  }

  lemma CreateEnds(k: nat)
    requires 1 <= k < BIGCOUNT && ReachableWithin(1, BIGCOUNT, Hoarder(k, BIGCOUNT - k, 1, CGetval(0, 0)))
    ensures ReachableWithin(1, BIGCOUNT, Hoarder(k + 1, BIGCOUNT - k - 1, 0, Out))
  {
    var v := BIGCOUNT - k;
    var held: map<Id, nat> := map[0 := k];
    assert held[0 := k + 1] == map[0 := k + 1];
    Extend(Hoarder(k, v, 1, CGetval(0, 0)), Go(false), Hoarder(k, v, 1, CEnd(0)));
    Extend(Hoarder(k, v, 1, CEnd(0)), Go(false), Hoarder(k + 1, v - 1, 0, Out));
  }

  /** With BIGCOUNT references outstanding the counter reads 0, which a further
      create takes for an uninitialised set: SETVAL runs while references are
      outstanding and discards their adjustments. */
  lemma FullCounterForgets() returns (s: Kernel)
    ensures ReachableWithin(1, BIGCOUNT, s) && |s.procs| == 1 && References(s) == BIGCOUNT && s.procs[0].adj1 == BIGCOUNT
    ensures Fires(s, 0, Go(false)) && SetsCount(s, 0, Go(false))
    ensures After(s, 0, Go(false)).procs[0].adj1 == 0
  {
    var k := BIGCOUNT;
    HoarderReachable(k);
    CreateLocks(k);
    s := Hoarder(k, 0, 1, CSetcount(0));
    Extend(Hoarder(k, 0, 1, CGetval(0, 0)), Go(false), Hoarder(k, 0, 1, CSetvalue(0, 0)));
    Extend(Hoarder(k, 0, 1, CSetvalue(0, 0)), Go(false), s);
    assert Total(s.procs, RefsTo(0)) == RefsTo(0)(s.procs[0]) + Total(s.procs[1..], RefsTo(0));
  }

  ghost predicate ForgetsNothing(s: Kernel) {
    s.live.Some? ==> forall u | 0 <= u < |s.procs| :: Held(s.procs[u], s.live.value) == 0 && s.procs[u].adj1 == 0
  }

  /** The state, of a run with at most `bound` references, in which SETVAL of the counter can run. */
  ghost predicate SetvalNext(n: nat, bound: nat, s: Kernel, p: Pid, act: Action) {
    ReachableWithin(n, bound, s) && Fires(s, p, act) && SetsCount(s, p, act)
  }

  /** SETVAL never forgets a reference or an adjustment in runs with at most
      `bound` references, exactly when the bound is below BIGCOUNT. */
  lemma ForgetsNothingExactlyWhen(bound: nat)
    ensures (forall n, s, p, act | SetvalNext(n, bound, s, p, act) :: ForgetsNothing(s)) <==> bound < BIGCOUNT
  {
    if bound < BIGCOUNT {
      forall n, s, p, act | SetvalNext(n, bound, s, p, act) ensures ForgetsNothing(s) {
        ReachableMore(n, bound, BIGCOUNT - 1, s);
        SetvalForgetsNothing(n, s, p, act);
      }
    } else {
      var s := FullCounterForgets();
      ReachableMore(1, BIGCOUNT, bound, s);
      assert SetvalNext(1, bound, s, 0, Go(false));
    }
  }
}
