/** `Semaphore` of `boundedBuffer/semaphore.cpp`: an integer under a mutex and a
    condition variable, used by any number of threads.  Sleepers, notified
    threads, threads that barge in before a notified one and spurious wakeups
    are all steps. */
module MonitorSemaphore {
  import opened Basics

  type Tid = nat

  datatype Pc =
    | Idle
    // wait()
    | WLock      // unique_lock l(m)
    | WCheck     // evaluates value > 0 with the mutex held
    | WSleep     // in cv.wait, mutex released
    | WAwake(notified: bool)   // woken, by notify or spuriously; has to take the mutex again
    | WTake      // value--
    | WUnlock
    // post()
    | PLock
    | PAdd       // value++
    | PNotify    // cv.notify_one()
    | PUnlock

  datatype Monitor = Monitor(init: int, value: int, free: nat, pc: seq<Pc>, posts: nat, waits: nat)

  datatype Choice = Wait | Post | Go(wake: Tid) | Spurious

  function Init(v: int, n: nat): Monitor {
    Monitor(v, v, 1, seq(n, i => Idle), 0, 0)
  }

  predicate Sleeping(s: Monitor) {
    exists t | 0 <= t < |s.pc| :: s.pc[t] == WSleep
  }

  predicate Fires(s: Monitor, t: Tid, c: Choice) {
    && t < |s.pc|
    && match s.pc[t]
       case Idle => c.Wait? || c.Post?
       case WSleep => c.Spurious?
       case WLock => c.Go? && s.free > 0
       case WAwake(_) => c.Go? && s.free > 0
       case PLock => c.Go? && s.free > 0
       case PNotify => c.Go? && (Sleeping(s) ==> c.wake < |s.pc| && s.pc[c.wake] == WSleep)
       case _ => c.Go?
  }

  function After(s: Monitor, t: Tid, c: Choice): Monitor
    requires Fires(s, t, c)
  {
    match s.pc[t]
    case Idle => s.(pc := s.pc[t := if c.Wait? then WLock else PLock])
    case WLock => s.(free := s.free - 1, pc := s.pc[t := WCheck])
    case WCheck =>
      if s.value > 0 then s.(pc := s.pc[t := WTake]) else s.(free := s.free + 1, pc := s.pc[t := WSleep])
    case WSleep => s.(pc := s.pc[t := WAwake(false)])
    case WAwake(_) => s.(free := s.free - 1, pc := s.pc[t := WCheck])
    case WTake => s.(value := s.value - 1, waits := s.waits + 1, pc := s.pc[t := WUnlock])
    case WUnlock => s.(free := s.free + 1, pc := s.pc[t := Idle])
    case PLock => s.(free := s.free - 1, pc := s.pc[t := PAdd])
    case PAdd => s.(value := s.value + 1, posts := s.posts + 1, pc := s.pc[t := PNotify])
    case PNotify =>
      if Sleeping(s) then s.(pc := s.pc[c.wake := WAwake(true)][t := PUnlock]) else s.(pc := s.pc[t := PUnlock])
    case PUnlock => s.(free := s.free + 1, pc := s.pc[t := Idle])
  }

  // ---------- the atomic counting semaphore ----------

  datatype Status = Ready | Waiting | Posting | Finished

  datatype Counter = Counter(value: int, status: seq<Status>)

  datatype Label = Stutter | CallWait(t: Tid) | CallPost(t: Tid) | Take(t: Tid) | Add(t: Tid) | Ret(t: Tid)

  predicate CounterFires(a: Counter, l: Label) {
    match l
    case Stutter => true
    case CallWait(t) => t < |a.status| && a.status[t] == Ready
    case CallPost(t) => t < |a.status| && a.status[t] == Ready
    case Take(t) => t < |a.status| && a.status[t] == Waiting && a.value > 0
    case Add(t) => t < |a.status| && a.status[t] == Posting
    case Ret(t) => t < |a.status| && a.status[t] == Finished
  }

  function CounterAfter(a: Counter, l: Label): Counter
    requires CounterFires(a, l)
  {
    match l
    case Stutter => a
    case CallWait(t) => a.(status := a.status[t := Waiting])
    case CallPost(t) => a.(status := a.status[t := Posting])
    case Take(t) => Counter(a.value - 1, a.status[t := Finished])
    case Add(t) => Counter(a.value + 1, a.status[t := Finished])
    case Ret(t) => a.(status := a.status[t := Ready])
  }

  function StatusOf(pc: Pc): Status {
    match pc
    case Idle => Ready
    case WUnlock => Finished
    case PNotify => Finished
    case PUnlock => Finished
    case PLock => Posting
    case PAdd => Posting
    case _ => Waiting
  }

  function Abs(s: Monitor): Counter {
    Counter(s.value, seq(|s.pc|, t requires 0 <= t < |s.pc| => StatusOf(s.pc[t])))
  }

  function LabelOf(s: Monitor, t: Tid, c: Choice): Label
    requires Fires(s, t, c)
  {
    match s.pc[t]
    case Idle => if c.Wait? then CallWait(t) else CallPost(t)
    case WTake => Take(t)
    case PAdd => Add(t)
    case WUnlock => Ret(t)
    case PUnlock => Ret(t)
    case _ => Stutter
  }

  // ---------- the invariant ----------

  predicate Holds(pc: Pc) {
    pc.WCheck? || pc.WTake? || pc.WUnlock? || pc.PAdd? || pc.PNotify? || pc.PUnlock?
  }

  ghost function Holding(): Pc -> int {
    (pc: Pc) => if Holds(pc) then 1 else 0
  }

  ghost function Notified(): Pc -> int {
    (pc: Pc) => if pc == WAwake(true) then 1 else 0
  }

  /** Threads that will look at the value, or wake somebody who will, before they
      sleep or leave; spuriously woken threads are not relied on. */
  ghost function Looking(): Pc -> int {
    (pc: Pc) => if pc == WAwake(true) || pc.WCheck? || pc.WTake? || pc.PNotify? then 1 else 0
  }

  ghost predicate Inv(s: Monitor) {
    && s.free + Total(s.pc, Holding()) == 1
    && (forall t | 0 <= t < |s.pc| && s.pc[t] == WTake :: s.value > 0)
    && s.value == s.init + s.posts - s.waits
    && (s.value >= 0 || s.value >= s.init)
    && (Sleeping(s) ==> s.value <= Total(s.pc, Looking()))
  }

  lemma InitInv(v: int, n: nat)
    ensures Inv(Init(v, n))
  {
    TotalZero(Init(v, n).pc, Holding());
  }

  lemma OneHolder(s: Monitor, t: Tid, u: Tid)
    requires s.free + Total(s.pc, Holding()) == 1 && t < |s.pc| && u < |s.pc| && t != u && Holds(s.pc[t])
    ensures !Holds(s.pc[u]) && s.free == 0
  {
    if t < u {
      TotalAtLeastTwo(s.pc, t, u, Holding());
    } else {
      TotalAtLeastTwo(s.pc, u, t, Holding());
    }
  }

  lemma LockStep(s: Monitor, t: Tid, c: Choice)
    requires Inv(s) && Fires(s, t, c)
    ensures After(s, t, c).free + Total(After(s, t, c).pc, Holding()) == 1
  {
    var s' := After(s, t, c);
    if s.pc[t].PNotify? && Sleeping(s) {
      TotalUpdate(s.pc, c.wake, WAwake(true), Holding());
      TotalUpdate(s.pc[c.wake := WAwake(true)], t, PUnlock, Holding());
    } else {
      TotalUpdate(s.pc, t, s'.pc[t], Holding());
    }
  }

  lemma LookingStep(s: Monitor, t: Tid, c: Choice)
    requires Inv(s) && Fires(s, t, c)
    ensures var s' := After(s, t, c); Sleeping(s') ==> s'.value <= Total(s'.pc, Looking())
  {
    var s' := After(s, t, c);
    TotalNonNegative(s'.pc, Looking());
    if s.pc[t].PNotify? && Sleeping(s) {
      TotalUpdate(s.pc, c.wake, WAwake(true), Looking());
      TotalUpdate(s.pc[c.wake := WAwake(true)], t, PUnlock, Looking());
    } else {
      TotalUpdate(s.pc, t, s'.pc[t], Looking());
      if Sleeping(s') && !s.pc[t].WCheck? {
        var u :| 0 <= u < |s'.pc| && s'.pc[u] == WSleep;
        assert s.pc[u] == WSleep;
      }
    }
  }

  lemma StepKeepsInv(s: Monitor, t: Tid, c: Choice)
    requires Inv(s) && Fires(s, t, c)
    ensures Inv(After(s, t, c))
  {
    var s' := After(s, t, c);
    LockStep(s, t, c);
    LookingStep(s, t, c);
    forall u | 0 <= u < |s'.pc| && s'.pc[u] == WTake ensures s'.value > 0 {
      if u != t {
        assert s.pc[u] == WTake;
        if Holds(s.pc[t]) { OneHolder(s, t, u); }
      }
    }
  }

  // ---------- every run ----------

  datatype Move = Move(t: Tid, c: Choice)

  predicate Runs(s: Monitor, moves: seq<Move>)
    decreases |moves|
  {
    moves == [] || (Fires(s, moves[0].t, moves[0].c) && Runs(After(s, moves[0].t, moves[0].c), moves[1..]))
  }

  function End(s: Monitor, moves: seq<Move>): Monitor
    requires Runs(s, moves)
    decreases |moves|
  {
    if moves == [] then s else End(After(s, moves[0].t, moves[0].c), moves[1..])
  }

  lemma {:induction false} RunKeepsInv(s: Monitor, moves: seq<Move>)
    requires Inv(s) && Runs(s, moves)
    ensures Inv(End(s, moves)) && End(s, moves).init == s.init && |End(s, moves).pc| == |s.pc|
    decreases |moves|
  {
    if moves != [] {
      StepKeepsInv(s, moves[0].t, moves[0].c);
      RunKeepsInv(After(s, moves[0].t, moves[0].c), moves[1..]);
    }
  }

  ghost predicate Reachable(v: int, n: nat, s: Monitor) {
    exists moves :: Runs(Init(v, n), moves) && End(Init(v, n), moves) == s
  }

  lemma ReachableInv(v: int, n: nat, s: Monitor)
    requires Reachable(v, n, s)
    ensures Inv(s) && s.init == v && |s.pc| == n
  {
    var moves :| Runs(Init(v, n), moves) && End(Init(v, n), moves) == s;
    InitInv(v, n);
    RunKeepsInv(Init(v, n), moves);
  }

  /** The value is the initial value plus posts minus completed waits, and never negative. */
  lemma ValueExact(v: int, n: nat, s: Monitor)
    requires Reachable(v, n, s)
    ensures s.value == v + s.posts - s.waits
    ensures v >= 0 ==> s.value >= 0
  {
    ReachableInv(v, n, s);
  }

  // ---------- every call counts once ----------

  /** The calls of `wait`, or of `post`, that a run makes. */
  function Calls(moves: seq<Move>, call: Choice): nat {
    if moves == [] then 0 else (if moves[0].c == call then 1 else 0) + Calls(moves[1..], call)
  }

  ghost function InStatus(status: Status): Pc -> int {
    (pc: Pc) => if StatusOf(pc) == status then 1 else 0
  }

  /** A thread that is woken up stays in its wait. */
  lemma StatusMoves(s: Monitor, t: Tid, c: Choice, status: Status)
    requires Fires(s, t, c)
    ensures |After(s, t, c).pc| == |s.pc|
    ensures Total(After(s, t, c).pc, InStatus(status)) ==
      Total(s.pc, InStatus(status)) - InStatus(status)(s.pc[t]) + InStatus(status)(After(s, t, c).pc[t])
  {
    if s.pc[t].PNotify? && Sleeping(s) {
      TotalUpdate(s.pc, c.wake, WAwake(true), InStatus(status));
      TotalUpdate(s.pc[c.wake := WAwake(true)], t, PUnlock, InStatus(status));
    } else {
      TotalUpdate(s.pc, t, After(s, t, c).pc[t], InStatus(status));
    }
  }

  lemma CallStep(s: Monitor, t: Tid, c: Choice)
    requires Fires(s, t, c)
    ensures var s' := After(s, t, c);
      && s'.waits + Total(s'.pc, InStatus(Waiting)) ==
         s.waits + Total(s.pc, InStatus(Waiting)) + (if c == Wait then 1 else 0)
      && s'.posts + Total(s'.pc, InStatus(Posting)) ==
         s.posts + Total(s.pc, InStatus(Posting)) + (if c == Post then 1 else 0)
  {
    StatusMoves(s, t, c, Waiting);
    StatusMoves(s, t, c, Posting);
  }

  lemma {:induction false} CallsFrom(s: Monitor, moves: seq<Move>)
    requires Runs(s, moves)
    ensures var e := End(s, moves);
      && e.waits + Total(e.pc, InStatus(Waiting)) == s.waits + Total(s.pc, InStatus(Waiting)) + Calls(moves, Wait)
      && e.posts + Total(e.pc, InStatus(Posting)) == s.posts + Total(s.pc, InStatus(Posting)) + Calls(moves, Post)
    decreases |moves|
  {
    if moves != [] {
      CallStep(s, moves[0].t, moves[0].c);
      CallsFrom(After(s, moves[0].t, moves[0].c), moves[1..]);
    }
  }

  /** Every call changes the value once: it is the initial value plus the posts
      called minus the waits called, but for the calls that have not done it yet. */
  lemma {:induction false} CallsAccounted(v: int, n: nat, moves: seq<Move>)
    requires Runs(Init(v, n), moves)
    ensures var s := End(Init(v, n), moves);
      && s.value - Total(s.pc, InStatus(Waiting)) + Total(s.pc, InStatus(Posting)) ==
         v + Calls(moves, Post) - Calls(moves, Wait)
      && ((forall t | 0 <= t < |s.pc| :: s.pc[t].Idle?) ==> s.value == v + Calls(moves, Post) - Calls(moves, Wait))
  {
    var s0 := Init(v, n);
    InitInv(v, n);
    RunKeepsInv(s0, moves);
    CallsFrom(s0, moves);
    TotalZero(s0.pc, InStatus(Waiting));
    TotalZero(s0.pc, InStatus(Posting));
    var s := End(s0, moves);
    if forall t | 0 <= t < |s.pc| :: s.pc[t].Idle? {
      TotalZero(s.pc, InStatus(Waiting));
      TotalZero(s.pc, InStatus(Posting));
    }
  }

  // ---------- no lost wakeup ----------

  lemma {:induction false} LookingIsNotified(pcs: seq<Pc>)
    requires forall i | 0 <= i < |pcs| :: !Holds(pcs[i])
    ensures Total(pcs, Looking()) == Total(pcs, Notified())
  {
    if |pcs| > 0 {
      LookingIsNotified(pcs[1..]);
    }
  }

  lemma NotifiedCoverValue(s: Monitor)
    requires Inv(s) && s.free > 0 && Sleeping(s)
    ensures s.value <= Total(s.pc, Notified())
  {
    forall i | 0 <= i < |s.pc| ensures !Holds(s.pc[i]) {
      TotalAtLeast(s.pc, i, Holding());
    }
    LookingIsNotified(s.pc);
  }

  /** No wakeup is lost: with the mutex free and somebody asleep, the value is
      at most the number of threads already notified, spurious wakeups aside. */
  lemma NoLostWakeup(v: int, n: nat, s: Monitor)
    requires Reachable(v, n, s) && s.free > 0 && Sleeping(s)
    ensures s.value <= Total(s.pc, Notified())
  {
    ReachableInv(v, n, s);
    NotifiedCoverValue(s);
  }

  /** The holder of the mutex can always go on. */
  lemma HolderGoes(s: Monitor, u: Tid) returns (c: Choice)
    requires u < |s.pc| && Holds(s.pc[u])
    ensures Fires(s, u, c) && c.Go?
  {
    var wake: Tid := 0;
    if Sleeping(s) {
      wake :| wake < |s.pc| && s.pc[wake] == WSleep;
    }
    c := Go(wake);
  }

  lemma WaiterServed(s: Monitor, t: Tid) returns (u: Tid, c: Choice)
    requires Inv(s) && s.value > 0 && t < |s.pc| && StatusOf(s.pc[t]) == Waiting
    ensures Fires(s, u, c) && c.Go? && !s.pc[u].Idle?
  {
    if s.free == 0 {
      u := TotalWitness(s.pc, Holding());
      c := HolderGoes(s, u);
    } else if s.pc[t] == WSleep {
      NotifiedCoverValue(s);
      u := TotalWitness(s.pc, Notified());
      c := Go(0);
    } else {
      TotalAtLeast(s.pc, t, Holding());
      u, c := t, Go(0);
    }
  }

  /** While the value is positive and a wait is not finished, some thread inside
      the semaphore can go on, without any new call or spurious wakeup. */
  lemma NoStuckWaiter(v: int, n: nat, s: Monitor, t: Tid) returns (u: Tid, c: Choice)
    requires Reachable(v, n, s) && s.value > 0 && t < |s.pc| && StatusOf(s.pc[t]) == Waiting
    ensures Fires(s, u, c) && c.Go? && !s.pc[u].Idle?
  {
    ReachableInv(v, n, s);
    u, c := WaiterServed(s, t);
  }

  /** A post in progress can go on, or whoever holds the mutex can. */
  lemma PosterServed(s: Monitor, t: Tid) returns (u: Tid, c: Choice)
    requires Inv(s) && t < |s.pc| && StatusOf(s.pc[t]) == Posting
    ensures Fires(s, u, c) && c.Go? && !s.pc[u].Idle?
  {
    if s.pc[t] == PLock && s.free == 0 {
      u := TotalWitness(s.pc, Holding());
      c := HolderGoes(s, u);
    } else {
      u, c := t, Go(0);
    }
  }

  // ---------- refinement ----------

  lemma Simulates(s: Monitor, t: Tid, c: Choice)
    requires Inv(s) && Fires(s, t, c)
    ensures CounterFires(Abs(s), LabelOf(s, t, c))
    ensures Abs(After(s, t, c)) == CounterAfter(Abs(s), LabelOf(s, t, c))
  {
    var s' := After(s, t, c);
    var a' := CounterAfter(Abs(s), LabelOf(s, t, c));
    forall u | 0 <= u < |s.pc| ensures Abs(s').status[u] == a'.status[u] {
    }
  }

  predicate CounterRuns(a: Counter, labels: seq<Label>)
    decreases |labels|
  {
    labels == [] || (CounterFires(a, labels[0]) && CounterRuns(CounterAfter(a, labels[0]), labels[1..]))
  }

  /** Calls and returns, as a client sees them. */
  function Visible(labels: seq<Label>): seq<Label> {
    if labels == [] then []
    else (if labels[0].Stutter? || labels[0].Take? || labels[0].Add? then [] else [labels[0]]) + Visible(labels[1..])
  }

  function Observed(s: Monitor, moves: seq<Move>): seq<Label>
    requires Runs(s, moves)
    decreases |moves|
  {
    if moves == [] then []
    else
      var t := moves[0].t;
      (match s.pc[t]
       case Idle => [if moves[0].c.Wait? then CallWait(t) else CallPost(t)]
       case WUnlock => [Ret(t)]
       case PUnlock => [Ret(t)]
       case _ => [])
      + Observed(After(s, t, moves[0].c), moves[1..])
  }

  function Labels(s: Monitor, moves: seq<Move>): seq<Label>
    requires Runs(s, moves)
    decreases |moves|
  {
    if moves == [] then []
    else [LabelOf(s, moves[0].t, moves[0].c)] + Labels(After(s, moves[0].t, moves[0].c), moves[1..])
  }

  lemma {:induction false} RefinesFrom(s: Monitor, moves: seq<Move>)
    requires Inv(s) && Runs(s, moves)
    ensures CounterRuns(Abs(s), Labels(s, moves)) && Visible(Labels(s, moves)) == Observed(s, moves)
    decreases |moves|
  {
    if moves != [] {
      var m := moves[0];
      var l, s' := LabelOf(s, m.t, m.c), After(s, m.t, m.c);
      StepKeepsInv(s, m.t, m.c);
      Simulates(s, m.t, m.c);
      RefinesFrom(s', moves[1..]);
      assert Labels(s, moves)[0] == l && Labels(s, moves)[1..] == Labels(s', moves[1..]);
    }
  }

  /** Every run looks to its clients like a run of an atomic counting semaphore. */
  lemma {:induction false} RefinesCounter(v: int, n: nat, moves: seq<Move>)
    requires Runs(Init(v, n), moves)
    ensures exists labels ::
      CounterRuns(Counter(v, seq(n, i => Ready)), labels) && Visible(labels) == Observed(Init(v, n), moves)
  {
    InitInv(v, n);
    RefinesFrom(Init(v, n), moves);
    assert Abs(Init(v, n)) == Counter(v, seq(n, i => Ready));
  }
}
