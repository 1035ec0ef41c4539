/** The life of one System V semaphore set as `lib/semaph.c` manages it:
    `sem_create`, `sem_open` and `sem_close` by any number of processes, each of
    which may exit at any point.

    The kernel rules are part of the model: an operation array is applied
    atomically or not at all, SEM_UNDO records the opposite of every change and
    is applied at exit, SETVAL clears the recorded adjustments of its member, and
    the id of a removed set is never given out again. */
module SemLifecycle {
  import opened Basics

  const BIGCOUNT: nat := 10000

  type Pid = nat
  type Id = nat

  /** The next system call of a process.  `asleep` says that the operation array
      was already tried and the process sleeps in the kernel. */
  datatype Pc =
    | Out
    | CGet(init: int)
    | CLock(id: Id, init: int, asleep: bool)
    | CGetval(id: Id, init: int)
    | CSetvalue(id: Id, init: int)
    | CSetcount(id: Id)
    | CEnd(id: Id)
    | OGet
    | ODecrement(id: Id)
    | XLock(id: Id)
    | XGetval(id: Id)
    | XRemove(id: Id)
    | XUnlock(id: Id)
    | Failed   // err_sys: about to exit
    | Dumped   // err_dump("sem[1] > BIGCOUNT")
    | Dead

  /** `refs` are the references the process holds: opened and not yet closed. */
  datatype Proc = Proc(pc: Pc, adj1: int, adj2: int, refs: map<Id, nat>)

  /** `live` is the set now bound to the key; `v0`, `v1`, `v2` are its members.
      Adjustments are kept for the live set only: removing a set drops them.
      `ready` records that the counter of the live set has been set by SETVAL. */
  datatype Kernel = Kernel(live: Option<Id>, next: Id, ready: bool, v0: int, v1: int, v2: int, procs: seq<Proc>)

  datatype Action =
    | Create(init: int)
    | Open
    | Close(id: Id)
    | Go(fail: bool)
    | Exit

  function Held(p: Proc, id: Id): nat {
    if id in p.refs then p.refs[id] else 0
  }

  function Init(n: nat): Kernel {
    Kernel(None, 0, false, 0, 0, 0, seq(n, i => Proc(Out, 0, 0, map[])))
  }

  /** The process is between a successful lock and its unlock. */
  predicate Locked(pc: Pc) {
    pc.CGetval? || pc.CSetvalue? || pc.CSetcount? || pc.CEnd? || pc.XGetval? || pc.XRemove? || pc.XUnlock?
  }

  predicate HasId(pc: Pc) {
    Locked(pc) || pc.CLock? || pc.ODecrement? || pc.XLock?
  }

  /** The operation array can be applied now: no member would block. */
  predicate Unblocked(s: Kernel, pc: Pc) {
    match pc
    case CLock(id, _, asleep) => s.live == Some(id) && s.v2 != 0 ==> !asleep
    case CEnd(id) => s.live == Some(id) ==> s.v1 >= 1 && s.v2 >= 1
    case ODecrement(id) => s.live == Some(id) ==> s.v1 >= 1
    case XLock(id) => s.live == Some(id) ==> s.v2 == 0
    case XUnlock(id) => s.live == Some(id) ==> s.v2 >= 1
    case _ => true
  }

  predicate Fires(s: Kernel, p: Pid, act: Action) {
    && p < |s.procs|
    && var pc := s.procs[p].pc;
       match act
       case Create(_) => pc.Out?
       case Open => pc.Out?
       case Close(id) => pc.Out? && Held(s.procs[p], id) > 0
       case Exit => !pc.Dead?
       case Go(_) => !pc.Out? && !pc.Dead? && !pc.Failed? && !pc.Dumped? && Unblocked(s, pc)
  }

  function Move(s: Kernel, p: Pid, pc: Pc): Kernel
    requires p < |s.procs|
  {
    s.(procs := s.procs[p := s.procs[p].(pc := pc)])
  }

  function NoAdjust1(procs: seq<Proc>): (r: seq<Proc>)
    ensures |r| == |procs|
  {
    seq(|procs|, i requires 0 <= i < |procs| => procs[i].(adj1 := 0))
  }

  function NoAdjust(procs: seq<Proc>): (r: seq<Proc>)
    ensures |r| == |procs|
  {
    seq(|procs|, i requires 0 <= i < |procs| => procs[i].(adj1 := 0, adj2 := 0))
  }

  function Clamp(v: int): int {
    if v < 0 then 0 else v
  }

  function AfterExit(s: Kernel, p: Pid): Kernel
    requires p < |s.procs|
  {
    var q := s.procs[p];
    var procs := s.procs[p := Proc(Dead, 0, 0, map[])];
    if s.live.None? then s.(procs := procs)
    else s.(v1 := Clamp(s.v1 + q.adj1), v2 := Clamp(s.v2 + q.adj2), procs := procs)
  }

  function After(s: Kernel, p: Pid, act: Action): Kernel
    requires Fires(s, p, act)
  {
    var q := s.procs[p];
    match act
    case Create(init) => Move(s, p, CGet(init))
    case Open => Move(s, p, OGet)
    case Close(id) => Move(s, p, XLock(id))
    case Exit => AfterExit(s, p)
    case Go(fail) =>
      if HasId(q.pc) && s.live != Some(q.pc.id) then
        // EINVAL, or EIDRM for a sleeper
        Move(s, p, if q.pc.CLock? && !q.pc.asleep then CGet(q.pc.init) else Failed)
      else
        match q.pc
        // sem_create
        case CGet(init) =>
          if fail then Move(s, p, Out)
          else if s.live.Some? then Move(s, p, CLock(s.live.value, init, false))
          else
            Move(s.(live := Some(s.next), next := s.next + 1, ready := false, v0 := 0, v1 := 0, v2 := 0),
                 p, CLock(s.next, init, false))
        case CLock(id, init, _) =>
          if s.v2 != 0 then Move(s, p, CLock(id, init, true))
          else
            s.(v2 := s.v2 + 1, procs := s.procs[p := q.(pc := CGetval(id, init), adj2 := q.adj2 - 1)])
        case CGetval(id, init) => Move(s, p, if s.v1 == 0 then CSetvalue(id, init) else CEnd(id))
        case CSetvalue(id, init) => Move(s.(v0 := init), p, CSetcount(id))
        case CSetcount(id) => Move(s.(ready := true, v1 := BIGCOUNT, procs := NoAdjust1(s.procs)), p, CEnd(id))
        case CEnd(id) =>
          s.(v1 := s.v1 - 1, v2 := s.v2 - 1,
             procs := s.procs[p := Proc(Out, q.adj1 + 1, q.adj2 + 1, q.refs[id := Held(q, id) + 1])])
        // sem_open
        case OGet => Move(s, p, if fail || s.live.None? then Out else ODecrement(s.live.value))
        case ODecrement(id) =>
          s.(v1 := s.v1 - 1, procs := s.procs[p := Proc(Out, q.adj1 + 1, q.adj2, q.refs[id := Held(q, id) + 1])])
        // sem_close
        case XLock(id) =>
          var left: nat := if Held(q, id) > 0 then Held(q, id) - 1 else 0;
          s.(v1 := s.v1 + 1, v2 := s.v2 + 1,
             procs := s.procs[p := Proc(XGetval(id), q.adj1 - 1, q.adj2 - 1, q.refs[id := left])])
        case XGetval(id) =>
          Move(s, p, if s.v1 > BIGCOUNT then Dumped else if s.v1 == BIGCOUNT then XRemove(id) else XUnlock(id))
        case XRemove(id) => Move(s.(live := None, procs := NoAdjust(s.procs)), p, Out)
        case XUnlock(id) => s.(v2 := s.v2 - 1, procs := s.procs[p := q.(pc := Out, adj2 := q.adj2 + 1)])
        case _ => s
  }

  // ---------- counting ----------

  ghost function RefsTo(id: Id): Proc -> int {
    (q: Proc) => Held(q, id)
  }

  ghost function InLock(): Proc -> int {
    (q: Proc) => if Locked(q.pc) then 1 else 0
  }

  /** The references all processes hold to the live set. */
  ghost function References(s: Kernel): int {
    if s.live.None? then 0 else Total(s.procs, RefsTo(s.live.value))
  }

  ghost function LockHolders(s: Kernel): int {
    Total(s.procs, InLock())
  }

  ghost predicate ProcInv(s: Kernel, q: Proc) {
    && (q.pc.Dead? ==> q.refs == map[])
    && !q.pc.Dumped?
    && (HasId(q.pc) ==> q.pc.id < s.next)
    && (forall id | id in q.refs :: id < s.next)
    && (Locked(q.pc) ==> s.live == Some(q.pc.id))
    && (s.live.Some? ==> q.adj1 == Held(q, s.live.value) && q.adj2 == (if Locked(q.pc) then -1 else 0))
    && (s.live.None? ==> q.adj1 == 0 && q.adj2 == 0)
    && (q.pc.CSetvalue? || q.pc.CSetcount? ==> s.v1 == 0)
    && (q.pc.CEnd? || q.pc.XGetval? || q.pc.XRemove? || q.pc.XUnlock? ==> s.v1 != 0)
    && (q.pc.XLock? ==> Held(q, q.pc.id) > 0)
  }

  ghost predicate Inv(s: Kernel) {
    && (s.live.Some? ==> s.live.value < s.next)
    && (s.live.Some? ==> s.v2 == LockHolders(s))
    && 0 <= LockHolders(s) <= 1
    && (s.live.Some? ==>
          if s.ready then s.v1 == BIGCOUNT - References(s) && s.v1 > 0 else s.v1 == 0 && References(s) == 0)
    && (forall p | 0 <= p < |s.procs| :: ProcInv(s, s.procs[p]))
  }

  /** The number of references stays below the initial value of the counter. */
  ghost predicate Roomy(s: Kernel) {
    References(s) < BIGCOUNT
  }

  lemma {:induction false} TotalSame(procs: seq<Proc>, procs': seq<Proc>, w: Proc -> int)
    requires |procs| == |procs'| && forall i | 0 <= i < |procs| :: w(procs[i]) == w(procs'[i])
    ensures Total(procs, w) == Total(procs', w)
  {
    if |procs| > 0 {
      assert forall i | 0 <= i < |procs[1..]| :: procs[1..][i] == procs[i + 1] && procs'[1..][i] == procs'[i + 1];
      TotalSame(procs[1..], procs'[1..], w);
    }
  }

  lemma InitInv(n: nat)
    ensures Inv(Init(n))
  {
    TotalZero(Init(n).procs, InLock());
  }

  /** Two processes are never inside locked sections together. */
  lemma OneHolder(s: Kernel, p: Pid, u: Pid)
    requires LockHolders(s) <= 1 && p < |s.procs| && u < |s.procs| && p != u && Locked(s.procs[p].pc)
    ensures !Locked(s.procs[u].pc)
  {
    if p < u {
      TotalAtLeastTwo(s.procs, p, u, InLock());
    } else {
      TotalAtLeastTwo(s.procs, u, p, InLock());
    }
  }

  // ---------- preservation ----------

  /** One process changes, the set stays: what has to be checked. */
  lemma UpdateKeepsInv(s: Kernel, s': Kernel, p: Pid)
    requires Inv(s) && p < |s.procs| && |s'.procs| == |s.procs|
    requires s'.live == s.live && s'.next == s.next && s'.ready == s.ready
    requires s'.procs == s.procs[p := s'.procs[p]]
    requires ProcInv(s', s'.procs[p])
    requires s.live.Some? ==>
      && s'.v2 - s.v2 == InLock()(s'.procs[p]) - InLock()(s.procs[p])
      && s'.v2 <= 1
      && (s'.v1 - s.v1 == Held(s.procs[p], s.live.value) - Held(s'.procs[p], s.live.value))
      && (s'.v1 != s.v1 ==> s.v1 + Held(s.procs[p], s.live.value) > 0)
    requires s.live.None? ==> !Locked(s'.procs[p].pc)
    requires forall u | 0 <= u < |s.procs| && u != p && Locked(s.procs[u].pc) :: (s'.v1 == 0 <==> s.v1 == 0)
    requires Roomy(s')
    ensures Inv(s')
  {
    TotalUpdate(s.procs, p, s'.procs[p], InLock());
    TotalNonNegative(s'.procs, InLock());
    if s.live.Some? {
      TotalUpdate(s.procs, p, s'.procs[p], RefsTo(s.live.value));
      TotalAtLeast(s.procs, p, RefsTo(s.live.value));
    } else {
      TotalZeroLock(s);
    }
    forall u | 0 <= u < |s'.procs| ensures ProcInv(s', s'.procs[u]) {
      if u != p {
        assert ProcInv(s, s.procs[u]);
      }
    }
  }

  lemma TotalZeroLock(s: Kernel)
    requires forall p | 0 <= p < |s.procs| :: ProcInv(s, s.procs[p])
    requires s.live.None?
    ensures LockHolders(s) == 0
  {
    forall i | 0 <= i < |s.procs| ensures InLock()(s.procs[i]) == 0 {
      assert ProcInv(s, s.procs[i]);
    }
    TotalZero(s.procs, InLock());
  }

  predicate MakesSet(s: Kernel, p: Pid, act: Action)
    requires p < |s.procs|
  {
    act == Go(false) && s.procs[p].pc.CGet? && s.live.None?
  }

  predicate SetsCount(s: Kernel, p: Pid, act: Action)
    requires p < |s.procs|
  {
    act.Go? && s.procs[p].pc.CSetcount? && s.live == Some(s.procs[p].pc.id)
  }

  predicate Removes(s: Kernel, p: Pid, act: Action)
    requires p < |s.procs|
  {
    act.Go? && s.procs[p].pc.XRemove? && s.live == Some(s.procs[p].pc.id)
  }

  lemma MakeKeepsInv(s: Kernel, p: Pid, act: Action)
    requires Inv(s) && Fires(s, p, act) && MakesSet(s, p, act)
    ensures Inv(After(s, p, act))
  {
    var s' := After(s, p, act);
    TotalZeroLock(s);
    TotalUpdate(s.procs, p, s'.procs[p], InLock());
    forall u | 0 <= u < |s'.procs| ensures ProcInv(s', s'.procs[u]) && RefsTo(s.next)(s'.procs[u]) == 0 {
      assert ProcInv(s, s.procs[u]);
    }
    TotalZero(s'.procs, RefsTo(s.next));
  }

  /** SETVAL of the counter: nobody holds a reference, so nothing is forgotten. */
  lemma SetCountKeepsInv(s: Kernel, p: Pid, act: Action)
    requires Inv(s) && Fires(s, p, act) && SetsCount(s, p, act)
    ensures Inv(After(s, p, act))
  {
    var s' := After(s, p, act);
    var id := s.live.value;
    assert ProcInv(s, s.procs[p]);
    forall u | 0 <= u < |s.procs|
      ensures s'.procs[u] == (if u == p then s.procs[u].(pc := CEnd(id)) else s.procs[u])
    {
      assert ProcInv(s, s.procs[u]);
      NoReferences(s, u);
    }
    assert s'.procs == s.procs[p := s'.procs[p]];
    TotalUpdate(s.procs, p, s'.procs[p], InLock());
    TotalUpdate(s.procs, p, s'.procs[p], RefsTo(id));
    forall u | 0 <= u < |s'.procs| ensures ProcInv(s', s'.procs[u]) {
      assert ProcInv(s, s.procs[u]);
      if u != p { OneHolder(s, p, u); }
    }
  }

  /** When no reference is counted, no process holds one. */
  lemma NoReferences(s: Kernel, u: Pid)
    requires s.live.Some? && References(s) == 0 && u < |s.procs|
    ensures Held(s.procs[u], s.live.value) == 0
  {
    TotalAtLeast(s.procs, u, RefsTo(s.live.value));
  }

  lemma RemoveKeepsInv(s: Kernel, p: Pid, act: Action)
    requires Inv(s) && Fires(s, p, act) && Removes(s, p, act)
    ensures Inv(After(s, p, act))
  {
    var s' := After(s, p, act);
    forall u | 0 <= u < |s'.procs| ensures ProcInv(s', s'.procs[u]) {
      assert ProcInv(s, s.procs[u]);
      if u != p { OneHolder(s, p, u); }
    }
    TotalZeroLock(s');
  }

  /** What a step that leaves the set in place does to its own process and to the members. */
  ghost predicate Local(s: Kernel, s': Kernel, p: Pid)
    requires p < |s.procs|
  {
    && |s'.procs| == |s.procs| && s'.live == s.live && s'.next == s.next && s'.ready == s.ready
    && s'.procs == s.procs[p := s'.procs[p]]
    && ProcInv(s', s'.procs[p])
    && (s.live.Some? ==>
          && s'.v2 - s.v2 == InLock()(s'.procs[p]) - InLock()(s.procs[p])
          && s'.v2 <= 1
          && s'.v1 - s.v1 == Held(s.procs[p], s.live.value) - Held(s'.procs[p], s.live.value)
          && (s'.v1 != s.v1 ==> s.v1 + Held(s.procs[p], s.live.value) > 0))
    && (s.live.None? ==> !Locked(s'.procs[p].pc))
  }

  /** The members agree with what one process knows. */
  ghost predicate Consistent(s: Kernel, q: Proc) {
    && ProcInv(s, q)
    && (s.live.Some? ==>
          && s.live.value < s.next && 0 <= s.v2 <= 1 && (Locked(q.pc) ==> s.v2 == 1)
          && 0 <= s.v1 <= BIGCOUNT
          && (if s.v1 == 0 then Held(q, s.live.value) == 0 else s.v1 <= BIGCOUNT - Held(q, s.live.value)))
  }

  predicate Applies(s: Kernel, p: Pid, act: Action)
    requires p < |s.procs|
  {
    var pc := s.procs[p].pc;
    act.Go? && HasId(pc) && s.live == Some(pc.id) && (pc.CLock? || pc.CEnd? || pc.ODecrement? || pc.XLock? || pc.XUnlock?)
  }

  lemma OwnApply(s: Kernel, p: Pid, act: Action)
    requires Fires(s, p, act) && Consistent(s, s.procs[p]) && Applies(s, p, act)
    ensures Local(s, After(s, p, act), p)
  {
    var s' := After(s, p, act);
    var q' := s'.procs[p];
    assert s'.procs == s.procs[p := q'];
  }

  lemma OwnExit(s: Kernel, p: Pid)
    requires Fires(s, p, Exit) && Consistent(s, s.procs[p])
    ensures Local(s, After(s, p, Exit), p)
  {
  }

  /** A call starts, or finds its set gone. */
  lemma OwnStart(s: Kernel, p: Pid, act: Action)
    requires Fires(s, p, act) && Consistent(s, s.procs[p]) && !act.Exit?
    requires act.Go? ==> HasId(s.procs[p].pc) && s.live != Some(s.procs[p].pc.id)
    ensures Local(s, After(s, p, act), p)
  {
    var s' := After(s, p, act);
    assert s'.procs == s.procs[p := s'.procs[p]];
  }

  /** A lock holder reads the counter or sets member [0]. */
  lemma OwnLook(s: Kernel, p: Pid, act: Action)
    requires Fires(s, p, act) && Consistent(s, s.procs[p]) && act.Go?
    requires HasId(s.procs[p].pc) && s.live == Some(s.procs[p].pc.id)
    requires s.procs[p].pc.CGetval? || s.procs[p].pc.CSetvalue? || s.procs[p].pc.XGetval?
    ensures Local(s, After(s, p, act), p)
  {
    var s' := After(s, p, act);
    assert s'.procs == s.procs[p := s'.procs[p]];
  }

  /** A call looks up the key. */
  lemma OwnGet(s: Kernel, p: Pid, act: Action)
    requires Fires(s, p, act) && Consistent(s, s.procs[p]) && act.Go? && !HasId(s.procs[p].pc) && !MakesSet(s, p, act)
    ensures Local(s, After(s, p, act), p)
  {
    var s' := After(s, p, act);
    assert s'.procs == s.procs[p := s'.procs[p]];
  }

  /** The remaining steps change one process and leave the set in place. */
  lemma OtherKeepsInv(s: Kernel, p: Pid, act: Action)
    requires Inv(s) && Fires(s, p, act) && Roomy(After(s, p, act))
    requires !MakesSet(s, p, act) && !SetsCount(s, p, act) && !Removes(s, p, act)
    ensures Inv(After(s, p, act))
  {
    var s' := After(s, p, act);
    assert ProcInv(s, s.procs[p]);
    forall u | 0 <= u < |s.procs| && u != p && Locked(s.procs[u].pc) ensures s'.v1 == 0 <==> s.v1 == 0 {
      StepKeepsInitialised(s, p, act, u);
    }
    if s.live.Some? {
      TotalAtLeast(s.procs, p, RefsTo(s.live.value));
      TotalNonNegative(s.procs, RefsTo(s.live.value));
      TotalAtLeast(s.procs, p, InLock());
    }
    if Applies(s, p, act) {
      OwnApply(s, p, act);
    } else if act.Exit? {
      OwnExit(s, p);
    } else if act.Go? && !HasId(s.procs[p].pc) {
      OwnGet(s, p, act);
    } else if act.Go? && s.live == Some(s.procs[p].pc.id) {
      OwnLook(s, p, act);
    } else {
      OwnStart(s, p, act);
    }
    UpdateKeepsInv(s, s', p);
  }

  lemma StepKeepsInitialised(s: Kernel, p: Pid, act: Action, u: Pid)
    requires Inv(s) && Fires(s, p, act) && Roomy(After(s, p, act))
    requires !MakesSet(s, p, act) && !SetsCount(s, p, act) && !Removes(s, p, act)
    requires u < |s.procs| && u != p && Locked(s.procs[u].pc)
    ensures After(s, p, act).v1 == 0 <==> s.v1 == 0
  {
    var s' := After(s, p, act);
    assert ProcInv(s, s.procs[p]) && ProcInv(s, s.procs[u]);
    OneHolder(s, u, p);
    TotalAtLeast(s.procs, u, InLock());
    if s.live.Some? {
      TotalUpdate(s.procs, p, s'.procs[p], RefsTo(s.live.value));
      TotalAtLeast(s.procs, p, RefsTo(s.live.value));
    }
  }

  lemma StepKeepsInv(s: Kernel, p: Pid, act: Action)
    requires Inv(s) && Fires(s, p, act) && Roomy(After(s, p, act))
    ensures Inv(After(s, p, act))
  {
    if MakesSet(s, p, act) {
      MakeKeepsInv(s, p, act);
    } else if SetsCount(s, p, act) {
      SetCountKeepsInv(s, p, act);
    } else if Removes(s, p, act) {
      RemoveKeepsInv(s, p, act);
    } else {
      OtherKeepsInv(s, p, act);
    }
  }
}
