/** How the calls of `lib/semaph.c` end: which of them fail, when the last close
    removes the set, what value an initialised set starts with, and when all
    calls in progress sleep for good. */
module SemCalls {
  import opened Basics
  import opened SemLifecycle
  import opened SemTheorems
  import opened SemOrphans

  // ---------- calls that fail ----------

  /** Clients that only create and close: no close fails, and a create fails only
      when its set is removed while it sleeps for the lock. */
  lemma FailsOnlyAsleep(n: nat, s: Kernel, p: Pid, act: Action)
    requires ClosedReachable(n, s) && Fires(s, p, act) && !act.Open?
    requires !s.procs[p].pc.Failed? && After(s, p, act).procs[p].pc.Failed?
    ensures act.Go? && s.procs[p].pc.CLock? && s.procs[p].pc.asleep && s.live != Some(s.procs[p].pc.id)
  {
    ClosedReachableInv(n, s);
    assert ProcInv(s, s.procs[p]) && ClosedProc(s, s.procs[p]);
  }

  /** Any clients: a call fails exactly when its set is gone, unless it is a create
      that does not sleep yet. */
  lemma FailsExactlyWhen(n: nat, s: Kernel, p: Pid)
    requires Reachable(n, s) && Fires(s, p, Go(false))
    ensures After(s, p, Go(false)).procs[p].pc.Failed? <==>
      var pc := s.procs[p].pc;
      (pc.XLock? || pc.ODecrement? || (pc.CLock? && pc.asleep)) && s.live != Some(pc.id)
  {
    ReachableInv(n, s);
    assert ProcInv(s, s.procs[p]);
  }

  /** A create whose set is removed before it sleeps looks up the key again, and
      then stands before the lock of the set that is live by then, with the
      initial value it was called with. */
  lemma CreateRetries(s: Kernel, p: Pid)
    requires Fires(s, p, Go(false)) && s.procs[p].pc.CLock? && !s.procs[p].pc.asleep && s.live != Some(s.procs[p].pc.id)
    ensures var again := After(s, p, Go(false));
      && Fires(again, p, Go(false)) && again.live == s.live
      && var s' := After(again, p, Go(false));
         && s'.live == (if s.live.Some? then s.live else Some(s.next))
         && s'.procs == s.procs[p := s.procs[p].(pc := CLock(s'.live.value, s.procs[p].pc.init, false))]
  {
    var again := After(s, p, Go(false));
    var s' := After(again, p, Go(false));
    assert s'.procs == s.procs[p := s'.procs[p]];
  }

  // ---------- the last close ----------

  /** A close that has the lock goes on to remove the set exactly when nobody
      holds a reference any more, and otherwise gives the lock back. */
  lemma LastCloseRemoves(n: nat, s: Kernel, p: Pid)
    requires Reachable(n, s) && Fires(s, p, Go(false)) && s.procs[p].pc.XGetval?
    ensures var next := After(s, p, Go(false)).procs[p].pc;
      var last := forall u | 0 <= u < |s.procs| :: Held(s.procs[u], s.procs[p].pc.id) == 0;
      && (next == XRemove(s.procs[p].pc.id) <==> last)
      && (next == XUnlock(s.procs[p].pc.id) <==> !last)
  {
    ReachableInv(n, s);
    assert ProcInv(s, s.procs[p]);
    var refs := RefsTo(s.live.value);
    TotalNonNegative(s.procs, refs);
    if References(s) > 0 {
      var u := TotalWitness(s.procs, refs);
      assert Held(s.procs[u], s.procs[p].pc.id) > 0;
    } else {
      forall u | 0 <= u < |s.procs| ensures Held(s.procs[u], s.procs[p].pc.id) == 0 {
        NoReferences(s, u);
      }
    }
  }

  // ---------- the initial value ----------

  predicate InCall(pc: Pc) {
    !pc.Out? && !pc.Failed? && !pc.Dumped? && !pc.Dead?
  }

  /** Before step `k` process `p` is still in the call `sem_create(key, init)` it made in step `j`. */
  ghost predicate Creating(s: Kernel, steps: seq<Step>, p: Pid, init: int, j: nat, k: nat)
    requires Runs(s, steps) && k <= |steps|
  {
    && j < k && steps[j] == Step(p, Create(init))
    && forall m | j < m <= k :: p < |At(s, steps, m).procs| && InCall(At(s, steps, m).procs[p].pc)
  }

  /** Step `i` initialised set `id`, which has been there since. */
  ghost predicate InitialisedAt(s: Kernel, steps: seq<Step>, id: Id, i: nat, k: nat)
    requires Runs(s, steps) && k <= |steps|
  {
    && i < k
    && Fires(At(s, steps, i), steps[i].p, steps[i].act) && SetsCount(At(s, steps, i), steps[i].p, steps[i].act)
    && forall m | i <= m <= k :: At(s, steps, m).live == Some(id)
  }

  predicate CarriesInit(pc: Pc) {
    pc.CGet? || pc.CLock? || pc.CGetval? || pc.CSetvalue?
  }

  /** The value that a create under way carries, in its arguments or in member [0]. */
  predicate Carries(s: Kernel, pc: Pc, init: int) {
    (CarriesInit(pc) && init == pc.init) || (pc.CSetcount? && init == s.v0)
  }

  lemma CarriedByOther(s: Kernel, p: Pid, act: Action, u: Pid, init: int)
    requires Inv(s) && Fires(s, p, act) && u < |s.procs| && u != p
    requires u < |After(s, p, act).procs| && Carries(After(s, p, act), After(s, p, act).procs[u].pc, init)
    ensures Carries(s, s.procs[u].pc, init)
  {
    assert ProcInv(s, s.procs[u]);
    if s.procs[u].pc.CSetcount? {
      OneHolder(s, u, p);
    }
  }

  lemma CarriedOn(s: Kernel, p: Pid, act: Action, init: int)
    requires Fires(s, p, act)
    requires p < |After(s, p, act).procs| && Carries(After(s, p, act), After(s, p, act).procs[p].pc, init)
    ensures act == Create(init) || (act.Go? && Carries(s, s.procs[p].pc, init))
  {
    var pc := s.procs[p].pc;
    if act.Go? && HasId(pc) && s.live == Some(pc.id) {
      assert After(s, p, act).procs[p].pc.CSetcount? ==> pc.CSetvalue?;
    }
  }

  lemma StillCreating(s: Kernel, steps: seq<Step>, p: Pid, init: int, j: nat, k: nat)
    requires Runs(s, steps) && k < |steps| && (Creating(s, steps, p, init, j, k) || (j == k && steps[k] == Step(p, Create(init))))
    requires p < |At(s, steps, k + 1).procs| && InCall(At(s, steps, k + 1).procs[p].pc)
    ensures Creating(s, steps, p, init, j, k + 1)
  {
  }

  lemma {:induction false} CarriesItsOwn(n: nat, steps: seq<Step>, k: nat, p: Pid, init: int) returns (j: nat)
    requires Runs(Init(n), steps) && StaysWithin(Init(n), steps, BIGCOUNT - 1) && k <= |steps|
    requires p < |At(Init(n), steps, k).procs|
    requires Carries(At(Init(n), steps, k), At(Init(n), steps, k).procs[p].pc, init)
    ensures Creating(Init(n), steps, p, init, j, k)
  {
    var s0 := Init(n);
    assert k > 0;
    InitInv(n);
    AtNext(s0, steps, k - 1);
    AtInv(s0, steps, k - 1);
    var last := steps[k - 1];
    if last.p == p {
      CarriedOn(At(s0, steps, k - 1), p, last.act, init);
    } else {
      CarriedByOther(At(s0, steps, k - 1), last.p, last.act, p, init);
    }
    if last == Step(p, Create(init)) {
      j := k - 1;
    } else {
      j := CarriesItsOwn(n, steps, k - 1, p, init);
    }
    StillCreating(s0, steps, p, init, j, k - 1);
  }

  lemma ReadyOn(s: Kernel, p: Pid, act: Action)
    requires Inv(s) && Fires(s, p, act) && After(s, p, act).live.Some? && After(s, p, act).ready
    ensures s.live == After(s, p, act).live && s.v0 == After(s, p, act).v0
    ensures s.ready || SetsCount(s, p, act)
  {
    assert ProcInv(s, s.procs[p]);
  }

  lemma {:induction false} WhoInitialised(n: nat, steps: seq<Step>, k: nat) returns (i: nat)
    requires Runs(Init(n), steps) && StaysWithin(Init(n), steps, BIGCOUNT - 1) && k <= |steps|
    requires At(Init(n), steps, k).live.Some? && At(Init(n), steps, k).ready
    ensures InitialisedAt(Init(n), steps, At(Init(n), steps, k).live.value, i, k)
    ensures At(Init(n), steps, i).v0 == At(Init(n), steps, k).v0
  {
    var s0 := Init(n);
    assert k > 0;
    InitInv(n);
    AtNext(s0, steps, k - 1);
    AtInv(s0, steps, k - 1);
    ReadyOn(At(s0, steps, k - 1), steps[k - 1].p, steps[k - 1].act);
    if At(s0, steps, k - 1).ready {
      i := WhoInitialised(n, steps, k - 1);
    } else {
      i := k - 1;
    }
  }

  /** Member [0] of an initialised set is the initial value of one create: the one
      that set the counter of this set, in the call it was still in. */
  lemma {:induction false} InitialValue(n: nat, steps: seq<Step>, k: nat) returns (j: nat, i: nat)
    requires Runs(Init(n), steps) && StaysWithin(Init(n), steps, BIGCOUNT - 1) && k <= |steps|
    requires At(Init(n), steps, k).live.Some? && At(Init(n), steps, k).ready
    ensures var s := At(Init(n), steps, k);
      InitialisedAt(Init(n), steps, s.live.value, i, k) && Creating(Init(n), steps, steps[i].p, s.v0, j, i)
  {
    i := WhoInitialised(n, steps, k);
    j := CarriesItsOwn(n, steps, i, steps[i].p, At(Init(n), steps, i).v0);
  }

  // ---------- sleeping for good ----------

  /** Some call goes on, unless every call in progress is a `sem_open` of a set
      that nobody has finished initialising; then none can. */
  lemma {:induction false} StuckExactlyWhen(n: nat, s: Kernel)
    requires Reachable(n, s)
    ensures (forall p: Pid | p < |s.procs| :: !Fires(s, p, Go(false))) <==>
      forall p: Pid | p < |s.procs| && InCall(s.procs[p].pc) ::
        s.procs[p].pc.ODecrement? && s.live == Some(s.procs[p].pc.id) && !s.ready
  {
    ReachableInv(n, s);
    if forall p: Pid | p < |s.procs| :: !Fires(s, p, Go(false)) {
      forall p: Pid | p < |s.procs| && InCall(s.procs[p].pc)
        ensures s.procs[p].pc.ODecrement? && s.live == Some(s.procs[p].pc.id) && !s.ready
      {
        assert !Fires(s, p, Go(false));
        assert ProcInv(s, s.procs[p]);
        if Locked(s.procs[p].pc) {
          HolderGoesOn(s, p);
        } else if LockHolders(s) == 1 {
          var u := TotalWitness(s.procs, InLock());
          HolderGoesOn(s, u);
        }
      }
    }
  }

  lemma HolderGoesOn(s: Kernel, u: Pid)
    requires Inv(s) && u < |s.procs| && Locked(s.procs[u].pc)
    ensures Fires(s, u, Go(false))
  {
    assert ProcInv(s, s.procs[u]);
    TotalAtLeast(s.procs, u, InLock());
  }

  /** Process 0 exits after `semget` has made the set. */
  function Abandoned(q: Proc): Kernel {
    Kernel(Some(0), 1, false, 0, 0, 0, [Proc(Dead, 0, 0, map[]), q])
  }

  lemma CreatorExits()
    ensures Reachable(2, Abandoned(Fresh))
  {
    var s0 := Kernel(None, 0, false, 0, 0, 0, [Fresh, Fresh]);
    var s1 := Kernel(None, 0, false, 0, 0, 0, [Proc(CGet(1), 0, 0, map[]), Fresh]);
    var s2 := Kernel(Some(0), 1, false, 0, 0, 0, [Proc(CLock(0, 1, false), 0, 0, map[]), Fresh]);
    assert s0 == Init(2);
    assert Runs(Init(2), []) && StaysWithin(Init(2), [], BIGCOUNT - 1) && End(Init(2), []) == s0;
    ExtendRoomy(2, s0, 0, Create(1), s1);
    ExtendRoomy(2, s1, 0, Go(false), s2);
    ExtendRoomy(2, s2, 0, Exit, Abandoned(Fresh));
  }

  /** And such a state is reached: an opener finds a set that is never initialised. */
  lemma OpenerSleeps() returns (s: Kernel)
    ensures Reachable(2, s) && |s.procs| == 2 && InCall(s.procs[1].pc)
    ensures forall p: Pid | p < |s.procs| :: !Fires(s, p, Go(false))
  {
    CreatorExits();
    var opening := Abandoned(Proc(OGet, 0, 0, map[]));
    s := Abandoned(Proc(ODecrement(0), 0, 0, map[]));
    ExtendRoomy(2, Abandoned(Fresh), 1, Open, opening);
    ExtendRoomy(2, opening, 1, Go(false), s);
  }

  /** Clients that only create and close never all sleep. */
  lemma CreateCloseGoesOn(n: nat, s: Kernel, p: Pid)
    requires ClosedReachable(n, s) && p < |s.procs| && InCall(s.procs[p].pc)
    ensures exists u: Pid | u < |s.procs| :: Fires(s, u, Go(false))
  {
    ClosedReachableInv(n, s);
    var steps :|
      Runs(Init(n), steps) && StaysWithin(Init(n), steps, BIGCOUNT - 1) && NoOpens(steps) && End(Init(n), steps) == s;
    assert Reachable(n, s);
    assert ClosedProc(s, s.procs[p]);
    StuckExactlyWhen(n, s);
  }
}
