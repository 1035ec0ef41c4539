/** When a run leaves a process with a reference to a removed set: exactly when
    some `sem_open` takes its reference between the moment a closer reads
    BIGCOUNT and the moment it removes the set. */
module SemOrphans {
  import opened Basics
  import opened SemLifecycle
  import opened SemTheorems

  /** The state before step `i` of a run. */
  function At(s: Kernel, steps: seq<Step>, i: nat): Kernel
    requires Runs(s, steps) && i <= |steps|
    decreases i
  {
    if i == 0 then s else At(After(s, steps[0].p, steps[0].act), steps[1..], i - 1)
  }

  lemma {:induction false} AtNext(s: Kernel, steps: seq<Step>, i: nat)
    requires Runs(s, steps) && i < |steps|
    ensures Fires(At(s, steps, i), steps[i].p, steps[i].act)
    ensures At(s, steps, i + 1) == After(At(s, steps, i), steps[i].p, steps[i].act)
    decreases i
  {
    if i > 0 {
      AtNext(After(s, steps[0].p, steps[0].act), steps[1..], i - 1);
    }
  }

  lemma {:induction false} AtInv(s: Kernel, steps: seq<Step>, i: nat)
    requires Inv(s) && Runs(s, steps) && StaysWithin(s, steps, BIGCOUNT - 1) && i <= |steps|
    ensures Inv(At(s, steps, i)) && Roomy(At(s, steps, i))
    decreases i
  {
    if i > 0 {
      StepKeepsInv(s, steps[0].p, steps[0].act);
      AtInv(After(s, steps[0].p, steps[0].act), steps[1..], i - 1);
    }
  }

  /** Some process holds a reference to a set that is not the live one. */
  ghost predicate Orphaned(s: Kernel) {
    exists u: Pid, id: Id | 0 <= u < |s.procs| && s.live != Some(id) :: Held(s.procs[u], id) > 0
  }

  ghost predicate NeverOrphans(s: Kernel, steps: seq<Step>)
    requires Runs(s, steps)
  {
    forall i | 0 <= i <= |steps| :: !Orphaned(At(s, steps, i))
  }

  /** The decrement of `sem_open`, on the live set. */
  predicate Takes(s: Kernel, p: Pid, act: Action)
    requires p < |s.procs|
  {
    act.Go? && s.procs[p].pc.ODecrement? && s.live == Some(s.procs[p].pc.id)
  }

  /** From step `i` to step `j` process `c` has read BIGCOUNT and has not removed the set yet. */
  ghost predicate Closing(s: Kernel, steps: seq<Step>, c: Pid, i: nat, j: nat)
    requires Runs(s, steps) && j <= |steps|
  {
    forall k | i <= k <= j :: c < |At(s, steps, k).procs| && At(s, steps, k).procs[c].pc.XRemove?
  }

  /** Step `i` is the decrement of a `sem_open` and step `j` the removal by a closer
      that had read BIGCOUNT before step `i`; the opener does not exit in between. */
  ghost predicate Overtaken(s: Kernel, steps: seq<Step>, i: nat, j: nat)
    requires Runs(s, steps)
  {
    && i < j < |steps|
    && Fires(At(s, steps, i), steps[i].p, steps[i].act) && Takes(At(s, steps, i), steps[i].p, steps[i].act)
    && Fires(At(s, steps, j), steps[j].p, steps[j].act) && Removes(At(s, steps, j), steps[j].p, steps[j].act)
    && Closing(s, steps, steps[j].p, i, j)
    && forall k | i < k < j :: steps[k] != Step(steps[i].p, Exit)
  }

  // ---------- an overtaken removal orphans ----------

  /** While a closer is about to remove the set, nobody gives up a reference but by exiting. */
  lemma KeepsReference(s: Kernel, c: Pid, q: Pid, p: Pid, act: Action)
    requires Inv(s) && Fires(s, p, act) && c < |s.procs| && q < |s.procs|
    requires s.procs[c].pc.XRemove? && After(s, p, act).procs[c].pc.XRemove?
    requires Held(s.procs[q], s.procs[c].pc.id) > 0 && (p != q || !act.Exit?)
    ensures After(s, p, act).procs[c].pc == s.procs[c].pc
    ensures q < |After(s, p, act).procs| && Held(After(s, p, act).procs[q], s.procs[c].pc.id) > 0
  {
    assert ProcInv(s, s.procs[c]);
    TotalAtLeast(s.procs, c, InLock());
    if p != c { OneHolder(s, c, p); }
  }

  lemma {:induction false} HeldUntil(s: Kernel, steps: seq<Step>, c: Pid, q: Pid, i: nat, k: nat, j: nat)
    requires Inv(s) && Runs(s, steps) && StaysWithin(s, steps, BIGCOUNT - 1) && i <= k <= j < |steps|
    requires Closing(s, steps, c, i, j) && forall m | i <= m < j :: steps[m] != Step(q, Exit)
    requires q < |At(s, steps, i).procs| && Held(At(s, steps, i).procs[q], At(s, steps, i).procs[c].pc.id) > 0
    ensures q < |At(s, steps, k).procs| && Held(At(s, steps, k).procs[q], At(s, steps, k).procs[c].pc.id) > 0
    decreases k
  {
    if k > i {
      HeldUntil(s, steps, c, q, i, k - 1, j);
      AtNext(s, steps, k - 1);
      AtInv(s, steps, k - 1);
      assert steps[k - 1] != Step(q, Exit);
      KeepsReference(At(s, steps, k - 1), c, q, steps[k - 1].p, steps[k - 1].act);
    }
  }

  lemma TakeHolds(s: Kernel, c: Pid, p: Pid, act: Action)
    requires Inv(s) && Fires(s, p, act) && Takes(s, p, act) && c < |s.procs| && s.procs[c].pc.XRemove?
    ensures c < |After(s, p, act).procs| && p < |After(s, p, act).procs| && After(s, p, act).procs[c].pc == s.procs[c].pc
    ensures Held(After(s, p, act).procs[p], s.procs[c].pc.id) > 0
  {
    assert ProcInv(s, s.procs[c]);
  }

  lemma RemoveOrphans(s: Kernel, q: Pid, p: Pid, act: Action)
    requires Fires(s, p, act) && Removes(s, p, act) && q < |s.procs| && Held(s.procs[q], s.procs[p].pc.id) > 0
    ensures Orphaned(After(s, p, act))
  {
    assert Held(After(s, p, act).procs[q], s.procs[p].pc.id) > 0;
  }

  lemma OvertakenOrphans(s: Kernel, steps: seq<Step>, i: nat, j: nat)
    requires Inv(s) && Runs(s, steps) && StaysWithin(s, steps, BIGCOUNT - 1) && Overtaken(s, steps, i, j)
    ensures Orphaned(At(s, steps, j + 1))
  {
    var c, q := steps[j].p, steps[i].p;
    AtNext(s, steps, i);
    AtInv(s, steps, i);
    TakeHolds(At(s, steps, i), c, q, steps[i].act);
    HeldUntil(s, steps, c, q, i + 1, j, j);
    AtNext(s, steps, j);
    RemoveOrphans(At(s, steps, j), q, c, steps[j].act);
  }

  // ---------- an orphan comes from an overtaken removal ----------

  /** Where references come from, and how the live set changes. */
  lemma HeldMoved(s: Kernel, p: Pid, act: Action, u: Pid, id: Id)
    requires Fires(s, p, act) && u < |s.procs|
    ensures |After(s, p, act).procs| == |s.procs|
    ensures Held(After(s, p, act).procs[u], id) > 0 ==>
      || (Held(s.procs[u], id) > 0 && (p != u || !act.Exit?))
      || (u == p && s.live == Some(id) && (Takes(s, p, act) || s.procs[p].pc.CEnd?) && After(s, p, act).live == s.live)
    ensures After(s, p, act).live == s.live || s.live.None? || Removes(s, p, act)
  {
  }

  /** References are lost only by removing the set they are to. */
  lemma {:induction false} OrphanBorn(s: Kernel, p: Pid, act: Action) returns (q: Pid)
    requires Fires(s, p, act) && !Orphaned(s) && Orphaned(After(s, p, act))
    ensures Removes(s, p, act) && q < |s.procs| && Held(s.procs[q], s.procs[p].pc.id) > 0
  {
    var s' := After(s, p, act);
    var u: Pid, id: Id :| 0 <= u < |s'.procs| && s'.live != Some(id) && Held(s'.procs[u], id) > 0;
    HeldMoved(s, p, act, u, id);
    q := u;
  }

  lemma {:induction false} FirstOrphan(s: Kernel, steps: seq<Step>, k: nat) returns (j: nat)
    requires Runs(s, steps) && k <= |steps| && !Orphaned(s) && Orphaned(At(s, steps, k))
    ensures j < k && !Orphaned(At(s, steps, j)) && Orphaned(At(s, steps, j + 1))
  {
    if Orphaned(At(s, steps, k - 1)) {
      j := FirstOrphan(s, steps, k - 1);
    } else {
      j := k - 1;
    }
  }

  /** A reference held while a closer is about to remove the set was there before,
      and the closer too, or a `sem_open` takes it in this step. */
  lemma TakenHereOrBefore(s: Kernel, s': Kernel, c: Pid, q: Pid, last: Step)
    requires Inv(s) && Fires(s, last.p, last.act) && s' == After(s, last.p, last.act) && c < |s'.procs| && q < |s'.procs|
    requires s'.procs[c].pc.XRemove? && Held(s'.procs[q], s'.procs[c].pc.id) > 0
    ensures |s.procs| == |s'.procs| && s.procs[c].pc == s'.procs[c].pc && last != Step(q, Exit)
    ensures Held(s.procs[q], s.procs[c].pc.id) > 0 || (last.p == q && Takes(s, q, last.act))
  {
    HeldMoved(s, last.p, last.act, c, 0);
    HeldMoved(s, last.p, last.act, q, s'.procs[c].pc.id);
    if last.p == c {
      JustRead(s, c, last.act);
      NoReferences(s, q);
    } else {
      OneHolder(s, c, last.p);
      assert ProcInv(s, s.procs[c]);
    }
  }

  /** A closer goes on to remove the set only when it reads BIGCOUNT, with no references. */
  lemma JustRead(s: Kernel, c: Pid, act: Action)
    requires Inv(s) && Fires(s, c, act) && After(s, c, act).procs[c].pc.XRemove?
    ensures s.procs[c].pc.XGetval? && s.live == Some(After(s, c, act).procs[c].pc.id) && References(s) == 0
  {
    assert ProcInv(s, s.procs[c]);
  }

  /** The same along a run. */
  lemma {:induction false} FoundBefore(s: Kernel, steps: seq<Step>, c: Pid, q: Pid, k: nat)
    requires Inv(s) && Runs(s, steps) && StaysWithin(s, steps, BIGCOUNT - 1) && 0 < k <= |steps|
    requires var s' := At(s, steps, k);
      c < |s'.procs| && q < |s'.procs| && s'.procs[c].pc.XRemove? && Held(s'.procs[q], s'.procs[c].pc.id) > 0
    ensures var before, last := At(s, steps, k - 1), steps[k - 1];
      && c < |before.procs| && q < |before.procs| && before.procs[c].pc.XRemove? && last != Step(q, Exit)
      && (Held(before.procs[q], before.procs[c].pc.id) > 0
          || (last.p == q && Fires(before, q, last.act) && Takes(before, q, last.act)))
  {
    AtNext(s, steps, k - 1);
    AtInv(s, steps, k - 1);
    TakenHereOrBefore(At(s, steps, k - 1), At(s, steps, k), c, q, steps[k - 1]);
  }

  lemma {:induction false} FindTake(s: Kernel, steps: seq<Step>, c: Pid, q: Pid, k: nat, j: nat) returns (i: nat)
    requires Inv(s) && Runs(s, steps) && StaysWithin(s, steps, BIGCOUNT - 1) && k <= j < |steps|
    requires forall u | 0 <= u < |s.procs| :: s.procs[u].refs == map[]
    requires Closing(s, steps, c, k, j) && forall m | k <= m < j :: steps[m] != Step(q, Exit)
    requires q < |At(s, steps, k).procs| && Held(At(s, steps, k).procs[q], At(s, steps, k).procs[c].pc.id) > 0
    ensures i < j && Closing(s, steps, c, i, j) && steps[i].p == q
    ensures Fires(At(s, steps, i), q, steps[i].act) && Takes(At(s, steps, i), q, steps[i].act)
    ensures forall m | i < m < j :: steps[m] != Step(q, Exit)
    decreases k
  {
    assert k > 0;
    FoundBefore(s, steps, c, q, k);
    i := k - 1;
    if Held(At(s, steps, i).procs[q], At(s, steps, i).procs[c].pc.id) > 0 {
      i := FindTake(s, steps, c, q, k - 1, j);
    }
  }

  lemma OrphansOvertaken(n: nat, steps: seq<Step>, k: nat) returns (i: nat, j: nat)
    requires Runs(Init(n), steps) && StaysWithin(Init(n), steps, BIGCOUNT - 1)
    requires k <= |steps| && Orphaned(At(Init(n), steps, k))
    ensures Overtaken(Init(n), steps, i, j)
  {
    var s := Init(n);
    InitInv(n);
    j := FirstOrphan(s, steps, k);
    AtNext(s, steps, j);
    AtInv(s, steps, j);
    var c := steps[j].p;
    var q := OrphanBorn(At(s, steps, j), c, steps[j].act);
    i := FindTake(s, steps, c, q, j, j);
  }

  /** With any clients: no process is ever left with a reference to a removed set,
      exactly when no `sem_open` takes a reference, and keeps it by not exiting,
      between a closer reading BIGCOUNT and that closer removing the set. */
  lemma {:induction false} NeverOrphansExactlyWhen(n: nat, steps: seq<Step>)
    requires Runs(Init(n), steps) && StaysWithin(Init(n), steps, BIGCOUNT - 1)
    ensures NeverOrphans(Init(n), steps) <==> !exists i: nat, j: nat :: Overtaken(Init(n), steps, i, j)
  {
    var s := Init(n);
    InitInv(n);
    if exists i: nat, j: nat :: Overtaken(s, steps, i, j) {
      var i: nat, j: nat :| Overtaken(s, steps, i, j);
      OvertakenOrphans(s, steps, i, j);
      assert Orphaned(At(s, steps, j + 1));
    }
    if !NeverOrphans(s, steps) {
      var k: nat :| 0 <= k <= |steps| && Orphaned(At(s, steps, k));
      var i, j := OrphansOvertaken(n, steps, k);
    }
  }
}
