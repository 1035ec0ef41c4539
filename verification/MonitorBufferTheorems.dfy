/** What holds of every run of the bounded buffer with its monitor semaphores:
    the safety of the buffer with atomic semaphores carries over, and so does the
    exact condition under which every run finishes, spurious wakeups or not. */
module MonitorBufferTheorems {
  import opened Basics
  import opened MonitorBuffer
  import opened MonitorBufferSteps
  import M = MonitorSemaphore
  import B = BoundedBuffer
  import BT = BufferTheorems
  import P = Primes

  datatype Move = Move(t: nat, c: M.Choice)

  predicate Runs(s: System, moves: seq<Move>)
    decreases |moves|
  {
    moves == [] || (Fires(s, moves[0].t, moves[0].c) && Runs(After(s, moves[0].t, moves[0].c), moves[1..]))
  }

  function End(s: System, moves: seq<Move>): System
    requires Runs(s, moves)
    decreases |moves|
  {
    if moves == [] then s else End(After(s, moves[0].t, moves[0].c), moves[1..])
  }

  ghost predicate Leads(s: System, s': System) {
    exists moves :: Runs(s, moves) && End(s, moves) == s'
  }

  ghost predicate Reachable(cap: nat, n: int, search: int -> int, p: nat, c: nat, s: System) {
    Leads(Init(cap, n, search, p, c), s)
  }

  // ---------- refinement ----------

  /** Every run follows a run of the buffer with atomic semaphores. */
  lemma {:induction false} Follows(s: System, moves: seq<Move>) returns (atomic: seq<B.Move>)
    requires Inv(s) && Runs(s, moves)
    ensures Inv(End(s, moves))
    ensures BT.Runs(Abs(s), atomic) && BT.End(Abs(s), atomic) == Abs(End(s, moves))
    decreases |moves|
  {
    if moves == [] {
      atomic := [];
    } else {
      var m := moves[0];
      StepRefines(s, m.t, m.c);
      var rest := Follows(After(s, m.t, m.c), moves[1..]);
      if Visible(s, m.t, m.c) {
        atomic := [MoveOf(s.prog, m.t)] + rest;
        assert atomic[1..] == rest;
      } else {
        atomic := rest;
      }
    }
  }

  /** Whatever is reachable with monitors is reachable with atomic semaphores. */
  lemma RefinesAtomic(cap: nat, n: int, search: int -> int, p: nat, c: nat, s: System)
    requires B.Ascending(search) && Reachable(cap, n, search, p, c, s)
    ensures Inv(s) && BT.Reachable(cap, n, search, p, c, Abs(s))
  {
    var s0 := Init(cap, n, search, p, c);
    var moves :| Runs(s0, moves) && End(s0, moves) == s;
    InitInv(cap, n, search, p, c);
    var atomic := Follows(s0, moves);
  }

  /** The program as written: the consecutive primes go through the queue in
      order, each once, and the queue never exceeds its capacity. */
  lemma PrimesInOrder(cap: nat, n: int, p: nat, c: nat, s: System)
    requires Reachable(cap, n, BT.PrimeSearch(), p, c, s)
    ensures s.prog.popped + s.prog.queue == s.prog.pushed && |s.prog.queue| <= cap
    ensures forall k | 0 <= k < |s.prog.pushed| :: P.NextPrime(B.Preceding(n, s.prog.pushed, k), s.prog.pushed[k])
    ensures BT.PrimesAbove(n, s.prog.pushed)
  {
    BT.SearchAscends(BT.PrimeSearch());
    RefinesAtomic(cap, n, BT.PrimeSearch(), p, c, s);
    BT.PrimesInOrder(cap, n, p, c, Abs(s));
    BT.SlotAccounting(cap, n, BT.PrimeSearch(), p, c, Abs(s));
  }

  // ---------- no deadlock ----------

  /** Nothing can happen any more, except that sleeping threads wake spuriously. */
  ghost predicate Halted(s: System) {
    forall t, c | Fires(s, t, c) :: c.Spurious?
  }

  ghost predicate Finished(s: System) {
    BT.Finished(s.prog) && forall t | 0 <= t < |s.inside| :: s.inside[t].None?
  }

  lemma IsInside(s: System, q: Sem, u: nat)
    requires Inv(s) && u < |s.inside| && !Get(s.sems, q).pc[u].Idle?
    ensures s.inside[u] == Some(q)
  {
    assert Fits(CallAt(s.prog, u), s.inside[u], q, M.StatusOf(Get(s.sems, q).pc[u]));
  }

  lemma CallFits(s: System, t: nat)
    requires Inv(s) && t < |s.inside| && s.inside[t].Some?
    ensures var q := s.inside[t].value; Fits(CallAt(s.prog, t), s.inside[t], q, M.StatusOf(Get(s.sems, q).pc[t]))
  {
    var q := s.inside[t].value;
    assert Fits(CallAt(s.prog, t), s.inside[t], q, M.StatusOf(Get(s.sems, q).pc[t]));
  }

  /** A thread inside a call on `q` that the atomic semaphore would not block
      goes on, or somebody else inside that call does. */
  lemma InsideGoes(s: System, t: nat, q: Sem) returns (u: nat, c: M.Choice)
    requires Inv(s) && t < |s.inside| && s.inside[t] == Some(q)
    requires CallAt(s.prog, t) == Wait(q) ==> Get(s.sems, q).value > 0
    ensures Fires(s, u, c) && !c.Spurious?
  {
    var m := Get(s.sems, q);
    CallFits(s, t);
    if M.StatusOf(m.pc[t]) == M.Waiting {
      u, c := M.WaiterServed(m, t);
    } else if M.StatusOf(m.pc[t]) == M.Posting {
      u, c := M.PosterServed(m, t);
    } else {
      u := t;
      c := M.HolderGoes(m, t);
    }
    IsInside(s, q, u);
  }

  lemma FiresSame(s: System, t: nat)
    requires t < Threads(s.prog)
    ensures MoveOf(Abs(s), t) == MoveOf(s.prog, t) && CallAt(Abs(s), t) == CallAt(s.prog, t)
    ensures CallAt(s.prog, t).Wait? && B.Fires(Abs(s), MoveOf(s.prog, t)) ==> Get(s.sems, CallAt(s.prog, t).q).value > 0
    ensures CallAt(s.prog, t).Data? && B.Fires(Abs(s), MoveOf(s.prog, t)) ==> B.Fires(s.prog, MoveOf(s.prog, t))
    ensures CallAt(s.prog, t).Done? ==> !B.Fires(Abs(s), MoveOf(s.prog, t))
  {
    Passes(Abs(s), t);
    if CallAt(s.prog, t).Data? {
      DataStep(s, t);
    }
  }

  /** A thread outside any call that the atomic buffer would let go on can go on. */
  lemma OutsideGoes(s: System, t: nat) returns (c: M.Choice)
    requires Inv(s) && t < |s.inside| && s.inside[t].None? && B.Fires(Abs(s), MoveOf(s.prog, t))
    ensures Fires(s, t, c) && !c.Spurious?
  {
    FiresSame(s, t);
    var call := CallAt(s.prog, t);
    if call.Wait? || call.Post? {
      assert Fits(call, s.inside[t], call.q, M.StatusOf(Get(s.sems, call.q).pc[t]));
      c := if call.Wait? then M.Wait else M.Post;
    } else {
      c := M.Go(0);
    }
  }

  function ThreadOf(b: B.Buffer, m: B.Move): nat {
    match m
    case Prod(i) => i
    case Cons(i) => |b.prods| + i
  }

  lemma AtomicStepGoes(s: System, m: B.Move) returns (u: nat, c: M.Choice)
    requires Inv(s) && B.Fires(Abs(s), m)
    ensures Fires(s, u, c) && !c.Spurious?
  {
    var t := ThreadOf(s.prog, m);
    assert MoveOf(s.prog, t) == m;
    if s.inside[t].None? {
      u := t;
      c := OutsideGoes(s, t);
    } else {
      var q := s.inside[t].value;
      CallFits(s, t);
      FiresSame(s, t);
      u, c := InsideGoes(s, t, q);
    }
  }

  lemma HaltedIsStuck(s: System)
    requires Inv(s) && Halted(s)
    ensures BT.Stuck(Abs(s))
  {
    forall m ensures !B.Fires(Abs(s), m) {
      if B.Fires(Abs(s), m) {
        var u, c := AtomicStepGoes(s, m);
      }
    }
  }

  lemma DoneIsOutside(s: System, t: nat)
    requires Inv(s) && Halted(s) && t < |s.inside| && CallAt(s.prog, t).Done?
    ensures s.inside[t].None?
  {
    if s.inside[t].Some? {
      var u, c := InsideGoes(s, t, s.inside[t].value);
    }
  }

  lemma FinishedCalls(s: System, t: nat)
    requires BT.Finished(s.prog) && t < Threads(s.prog)
    ensures CallAt(s.prog, t).Done?
  {
    if t >= |s.prog.prods| {
      assert s.prog.cons[t - |s.prog.prods|].Consumed?;
    }
  }

  /** With at most as many consumers as producers and at most as many producers
      as slots, a run halts exactly when everybody has finished. */
  lemma NoDeadlock(cap: nat, n: int, search: int -> int, p: nat, c: nat, s: System)
    requires B.Ascending(search) && Reachable(cap, n, search, p, c, s)
    requires c <= p <= cap
    ensures Halted(s) <==> Finished(s)
  {
    RefinesAtomic(cap, n, search, p, c, s);
    if Halted(s) {
      HaltedIsStuck(s);
      BT.NoDeadlock(cap, n, search, p, c, Abs(s));
      assert BT.Finished(s.prog);
      forall t | 0 <= t < |s.inside| ensures s.inside[t].None? {
        FinishedCalls(s, t);
        DoneIsOutside(s, t);
      }
    }
    if Finished(s) {
      forall t, c | Fires(s, t, c) ensures false {
        FinishedCalls(s, t);
      }
    }
  }

  // ---------- every run is bounded by its spurious wakeups ----------

  /** How far a call in progress is from the weight its program point stands for:
      5 for a wait and 7 for a post, which may have to wake a sleeper. */
  ghost function Effort(): M.Pc -> int {
    (pc: M.Pc) =>
      match pc
      case Idle => 0
      case WLock => -1
      case WCheck => -2
      case WSleep => -3
      case WAwake(_) => -1
      case WTake => -3
      case WUnlock => 1
      case PLock => -1
      case PAdd => -2
      case PNotify => 4
      case PUnlock => 1
  }

  ghost function ProducerWork(): B.Producer -> int {
    (p: B.Producer) =>
      match p
      case Enter => 40
      case Seed => 35
      case LockQueue => 34
      case TakeSlot => 29
      case Search => 24
      case Push(_) => 23
      case Remember(_) => 22
      case LeaveOther => 21
      case UnlockQueue => 14
      case SignalFull => 7
      case Produced => 0
  }

  ghost function ConsumerWork(): B.Consumer -> int {
    (c: B.Consumer) =>
      match c
      case AwaitItem => 26
      case LockList => 21
      case Front => 16
      case Pop(_) => 15
      case UnlockList => 14
      case ReturnSlot => 7
      case Consumed => 0
  }

  ghost function ProgramWork(b: B.Buffer): int {
    Total(b.prods, ProducerWork()) + Total(b.cons, ConsumerWork())
  }

  ghost function CallWork(sems: Sems): int {
    Total(sems.full.pc, Effort()) + Total(sems.empty.pc, Effort())
    + Total(sems.sync.pc, Effort()) + Total(sems.other.pc, Effort())
  }

  ghost function Work(s: System): int {
    ProgramWork(s.prog) + CallWork(s.sems)
  }

  lemma MonitorWork(m: M.Monitor, t: nat, c: M.Choice)
    requires M.Fires(m, t, c)
    ensures var l := M.LabelOf(m, t, c);
      Total(M.After(m, t, c).pc, Effort()) <= Total(m.pc, Effort()) +
        (if l.Take? then 4 else if l.Add? then 6 else if c.Spurious? then 2 else -1)
  {
    var m' := M.After(m, t, c);
    if m.pc[t].PNotify? && M.Sleeping(m) {
      TotalUpdate(m.pc, c.wake, M.WAwake(true), Effort());
      TotalUpdate(m.pc[c.wake := M.WAwake(true)], t, M.PUnlock, Effort());
    } else {
      TotalUpdate(m.pc, t, m'.pc[t], Effort());
    }
  }

  lemma PassedWork(b: B.Buffer, t: nat)
    requires t < Threads(b)
    ensures CallAt(b, t).Wait? ==> ProgramWork(Passed(b, t)) == ProgramWork(b) - 5
    ensures CallAt(b, t).Post? ==> ProgramWork(Passed(b, t)) == ProgramWork(b) - 7
  {
    if t < |b.prods| {
      TotalUpdate(b.prods, t, ProducerNext(b.prods[t]), ProducerWork());
    } else {
      var i := t - |b.prods|;
      TotalUpdate(b.cons, i, ConsumerNext(b.cons[i]), ConsumerWork());
    }
  }

  lemma DataWork(b: B.Buffer, t: nat)
    requires t < Threads(b) && CallAt(b, t).Data? && B.Fires(b, MoveOf(b, t))
    ensures ProgramWork(B.After(b, MoveOf(b, t))) == ProgramWork(b) - 1
  {
    var b' := B.After(b, MoveOf(b, t));
    if t < |b.prods| {
      TotalUpdate(b.prods, t, b'.prods[t], ProducerWork());
    } else {
      var i := t - |b.prods|;
      TotalUpdate(b.cons, i, b'.cons[i], ConsumerWork());
    }
  }

  lemma EnterWork(s: System, q: Sem, t: nat, c: M.Choice)
    requires Inv(s) && t < |s.inside| && M.Fires(Get(s.sems, q), t, c) && At(s, q, t, c)
    ensures Work(Enter(s, q, t, c)) <= Work(s) - 1 + (if c.Spurious? then 3 else 0)
  {
    assert Fits(CallAt(s.prog, t), s.inside[t], q, M.StatusOf(Get(s.sems, q).pc[t]));
    EnterOwn(s, q, t, c);
    MonitorWork(Get(s.sems, q), t, c);
    PutWork(s.sems, q, M.After(Get(s.sems, q), t, c));
    PassedWork(s.prog, t);
  }

  lemma PutWork(sems: Sems, q: Sem, m: M.Monitor)
    ensures CallWork(Put(sems, q, m)) == CallWork(sems) - Total(Get(sems, q).pc, Effort()) + Total(m.pc, Effort())
  {
  }

  lemma StepWork(s: System, t: nat, c: M.Choice)
    requires Inv(s) && Fires(s, t, c)
    ensures Work(After(s, t, c)) <= Work(s) - 1 + (if c.Spurious? then 3 else 0)
  {
    if s.inside[t].Some? {
      EnterWork(s, s.inside[t].value, t, c);
    } else if CallAt(s.prog, t).Data? {
      DataWork(s.prog, t);
    } else {
      EnterWork(s, CallAt(s.prog, t).q, t, c);
    }
  }

  lemma WorkFloor(s: System)
    requires Sized(s)
    ensures Work(s) >= -12 * |s.inside|
  {
    TotalNonNegative(s.prog.prods, ProducerWork());
    TotalNonNegative(s.prog.cons, ConsumerWork());
    assert |Get(s.sems, Full).pc| == |Get(s.sems, Empty).pc| == |Get(s.sems, Sync).pc| == |Get(s.sems, Other).pc| == |s.inside|;
    TotalFloor(s.sems.full.pc, Effort(), -3);
    TotalFloor(s.sems.empty.pc, Effort(), -3);
    TotalFloor(s.sems.sync.pc, Effort(), -3);
    TotalFloor(s.sems.other.pc, Effort(), -3);
  }

  function SpuriousIn(moves: seq<Move>): nat {
    if moves == [] then 0 else (if moves[0].c.Spurious? then 1 else 0) + SpuriousIn(moves[1..])
  }

  lemma {:induction false} RunWork(s: System, moves: seq<Move>)
    requires Inv(s) && Runs(s, moves)
    ensures Inv(End(s, moves)) && |End(s, moves).inside| == |s.inside|
    ensures |moves| <= Work(s) - Work(End(s, moves)) + 3 * SpuriousIn(moves)
    decreases |moves|
  {
    if moves != [] {
      StepRefines(s, moves[0].t, moves[0].c);
      StepWork(s, moves[0].t, moves[0].c);
      RunWork(After(s, moves[0].t, moves[0].c), moves[1..]);
    }
  }

  lemma InitWork(cap: nat, n: int, search: int -> int, p: nat, c: nat)
    ensures Work(Init(cap, n, search, p, c)) <= 40 * p + 26 * c
  {
    var s := Init(cap, n, search, p, c);
    TotalBound(s.prog.prods, ProducerWork(), 40);
    TotalBound(s.prog.cons, ConsumerWork(), 26);
    TotalZero(s.sems.full.pc, Effort());
    TotalZero(s.sems.empty.pc, Effort());
    TotalZero(s.sems.sync.pc, Effort());
    TotalZero(s.sems.other.pc, Effort());
  }

  /** The length of a run is linear in the number of threads and of spurious wakeups. */
  lemma {:induction false} RunsAreBounded(cap: nat, n: int, search: int -> int, p: nat, c: nat, moves: seq<Move>)
    requires B.Ascending(search) && Runs(Init(cap, n, search, p, c), moves)
    ensures |moves| <= 52 * p + 38 * c + 3 * SpuriousIn(moves)
  {
    var s := Init(cap, n, search, p, c);
    InitInv(cap, n, search, p, c);
    InitWork(cap, n, search, p, c);
    RunWork(s, moves);
    WorkFloor(End(s, moves));
  }

  // ---------- the condition is exact ----------

  lemma {:induction false} RunsAppend(s: System, moves: seq<Move>, t: nat, c: M.Choice)
    requires Runs(s, moves) && Fires(End(s, moves), t, c)
    ensures Runs(s, moves + [Move(t, c)]) && End(s, moves + [Move(t, c)]) == After(End(s, moves), t, c)
    decreases |moves|
  {
    var more := moves + [Move(t, c)];
    if moves == [] {
      assert more[1..] == [];
    } else {
      assert more[1..] == moves[1..] + [Move(t, c)];
      RunsAppend(After(s, moves[0].t, moves[0].c), moves[1..], t, c);
    }
  }

  lemma LeadsOn(root: System, s: System, t: nat, c: M.Choice)
    requires Leads(root, s) && Fires(s, t, c)
    ensures Leads(root, After(s, t, c))
  {
    var moves :| Runs(root, moves) && End(root, moves) == s;
    RunsAppend(root, moves, t, c);
  }

  /** No thread other than `t` is inside a call. */
  ghost predicate Alone(s: System, t: nat) {
    forall u | 0 <= u < |s.inside| && u != t :: s.inside[u].None?
  }

  ghost predicate Quiet(s: System) {
    forall u | 0 <= u < |s.inside| :: s.inside[u].None?
  }

  /** A call that no other thread disturbs and that need not sleep. */
  ghost predicate Clear(m: M.Monitor, t: nat) {
    && t < |m.pc| && !m.pc[t].Idle? && !m.pc[t].WSleep?
    && (M.StatusOf(m.pc[t]) == M.Waiting ==> m.value > 0)
    && forall u | 0 <= u < |m.pc| && u != t :: m.pc[u].Idle?
  }

  function Rank(pc: M.Pc): nat {
    match pc
    case Idle => 0
    case WUnlock => 1
    case PUnlock => 1
    case PNotify => 2
    case WTake => 2
    case PAdd => 3
    case WCheck => 3
    case WLock => 4
    case WAwake(_) => 4
    case PLock => 4
    case WSleep => 5
  }

  lemma ClearStep(m: M.Monitor, t: nat)
    requires M.Inv(m) && Clear(m, t)
    ensures M.Fires(m, t, M.Go(0))
    ensures var m' := M.After(m, t, M.Go(0));
      && |m'.pc| == |m.pc| && Rank(m'.pc[t]) < Rank(m.pc[t]) && (m'.pc[t].Idle? || Clear(m', t))
  {
    if m.free == 0 {
      var u := TotalWitness(m.pc, M.Holding());
    }
  }

  lemma AloneIsClear(s: System, t: nat, q: Sem)
    requires Inv(s) && Alone(s, t) && t < |s.inside| && s.inside[t] == Some(q) && !Get(s.sems, q).pc[t].WSleep?
    requires M.StatusOf(Get(s.sems, q).pc[t]) == M.Waiting ==> Get(s.sems, q).value > 0
    ensures Clear(Get(s.sems, q), t)
  {
    CallFits(s, t);
    forall u | 0 <= u < |s.inside| && u != t ensures Get(s.sems, q).pc[u].Idle? {
      assert Fits(CallAt(s.prog, u), s.inside[u], q, M.StatusOf(Get(s.sems, q).pc[u]));
    }
  }

  /** What the buffer with atomic semaphores is when the call of `t` has returned. */
  ghost predicate Returns(s: System, t: nat, q: Sem, b: B.Buffer)
    requires Sized(s) && t < |s.inside|
  {
    if M.StatusOf(Get(s.sems, q).pc[t]) == M.Finished then b == Abs(s)
    else B.Fires(Abs(s), MoveOf(s.prog, t)) && b == B.After(Abs(s), MoveOf(s.prog, t))
  }

  lemma ReturnsKept(s: System, t: nat, q: Sem, b: B.Buffer)
    requires Inv(s) && t < |s.inside| && s.inside[t] == Some(q) && Clear(Get(s.sems, q), t)
    requires Returns(s, t, q, b)
    ensures M.Fires(Get(s.sems, q), t, M.Go(0))
    ensures var s' := Enter(s, q, t, M.Go(0));
      && Inv(s') && |s'.inside| == |s.inside|
      && (if s'.inside[t].None? then b == Abs(s') else s'.inside[t] == Some(q) && Returns(s', t, q, b))
  {
    var m := Get(s.sems, q);
    ClearStep(m, t);
    EnterKeeps(s, q, t, M.Go(0));
    CallFits(s, t);
    EnterOwn(s, q, t, M.Go(0));
    MonitorMoves(m, t, M.Go(0));
    LabelFits(m, t, M.Go(0));
    GetPut(s.sems, q, M.After(m, t, M.Go(0)), q);
  }

  lemma EnterAlone(s: System, t: nat, q: Sem, c: M.Choice)
    requires t < |s.inside| && t < Threads(s.prog) && M.Fires(Get(s.sems, q), t, c) && Alone(s, t)
    ensures Alone(Enter(s, q, t, c), t)
    ensures Get(Enter(s, q, t, c).sems, q) == M.After(Get(s.sems, q), t, c)
  {
    GetPut(s.sems, q, M.After(Get(s.sems, q), t, c), q);
  }

  /** A thread alone in a call runs through it. */
  lemma {:induction false} RunsThrough(root: System, s: System, t: nat, q: Sem, b: B.Buffer) returns (s': System)
    requires Leads(root, s) && Inv(s) && Alone(s, t) && t < |s.inside| && s.inside[t] == Some(q)
    requires Clear(Get(s.sems, q), t) && Returns(s, t, q, b)
    ensures Leads(root, s') && Inv(s') && Quiet(s') && Abs(s') == b
    decreases Rank(Get(s.sems, q).pc[t])
  {
    ClearStep(Get(s.sems, q), t);
    ReturnsKept(s, t, q, b);
    EnterAlone(s, t, q, M.Go(0));
    LeadsOn(root, s, t, M.Go(0));
    s' := Enter(s, q, t, M.Go(0));
    if s'.inside[t].Some? {
      CallFits(s', t);
      s' := RunsThrough(root, s', t, q, b);
    }
  }

  /** With nobody else inside a call, a thread makes its atomic step by itself. */
  lemma Solo(root: System, s: System, t: nat) returns (s': System)
    requires Leads(root, s) && Inv(s) && Quiet(s) && t < |s.inside| && B.Fires(Abs(s), MoveOf(s.prog, t))
    ensures Leads(root, s') && Inv(s') && Quiet(s') && Abs(s') == B.After(Abs(s), MoveOf(s.prog, t))
  {
    var c := OutsideGoes(s, t);
    FiresSame(s, t);
    LeadsOn(root, s, t, c);
    StepRefines(s, t, c);
    s' := After(s, t, c);
    if !CallAt(s.prog, t).Data? {
      var q := CallAt(s.prog, t).q;
      EntersCall(s, t, q, c);
      s' := RunsThrough(root, s', t, q, B.After(Abs(s), MoveOf(s.prog, t)));
    }
  }

  /** Calling `wait` or `post`: the monitor has the call and nothing else changes. */
  lemma CallBegins(s: System, t: nat, q: Sem, c: M.Choice)
    requires Inv(s) && Fires(s, t, c) && s.inside[t].None?
    requires CallAt(s.prog, t) == Wait(q) || CallAt(s.prog, t) == Post(q)
    ensures var s' := After(s, t, c);
      && s' == Enter(s, q, t, c) && s'.prog == s.prog && s'.inside == s.inside[t := Some(q)]
      && (Get(s'.sems, q).pc[t] == if c.Wait? then M.WLock else M.PLock)
      && Get(s'.sems, q).value == Get(s.sems, q).value
      && (c.Wait? <==> CallAt(s.prog, t) == Wait(q))
  {
    assert Fits(CallAt(s.prog, t), s.inside[t], q, M.StatusOf(Get(s.sems, q).pc[t]));
    GetPut(s.sems, q, M.After(Get(s.sems, q), t, c), q);
  }

  /** The same with nobody else inside a call. */
  lemma EntersCall(s: System, t: nat, q: Sem, c: M.Choice)
    requires Inv(s) && Quiet(s) && Fires(s, t, c) && B.Fires(Abs(s), MoveOf(s.prog, t)) && Inv(After(s, t, c))
    requires CallAt(s.prog, t) == Wait(q) || CallAt(s.prog, t) == Post(q)
    requires Abs(After(s, t, c)) == Abs(s)
    ensures var s' := After(s, t, c);
      && |s'.inside| == |s.inside| && Alone(s', t) && s'.inside[t] == Some(q)
      && Clear(Get(s'.sems, q), t) && Returns(s', t, q, B.After(Abs(s), MoveOf(s.prog, t)))
  {
    CallBegins(s, t, q, c);
    FiresSame(s, t);
    AloneIsClear(After(s, t, c), t, q);
  }

  /** Every run with atomic semaphores is also one with monitors. */
  lemma {:induction false} Realised(root: System, s: System, moves: seq<B.Move>) returns (s': System)
    requires Leads(root, s) && Inv(s) && Quiet(s) && BT.Runs(Abs(s), moves)
    ensures Leads(root, s') && Inv(s') && Quiet(s') && Abs(s') == BT.End(Abs(s), moves)
    decreases |moves|
  {
    if moves == [] {
      s' := s;
    } else {
      var t := ThreadOf(s.prog, moves[0]);
      assert MoveOf(s.prog, t) == moves[0];
      s' := Solo(root, s, t);
      s' := Realised(root, s', moves[1..]);
    }
  }

  /** What the buffer with atomic semaphores can reach, the one with monitors can reach. */
  lemma ReachesAtomic(cap: nat, n: int, search: int -> int, p: nat, c: nat, b: B.Buffer) returns (s: System)
    requires B.Ascending(search) && BT.Reachable(cap, n, search, p, c, b)
    ensures Reachable(cap, n, search, p, c, s) && Inv(s) && Abs(s) == b
  {
    var s0 := Init(cap, n, search, p, c);
    var moves :| BT.Runs(B.Init(cap, n, search, p, c), moves) && BT.End(B.Init(cap, n, search, p, c), moves) == b;
    InitInv(cap, n, search, p, c);
    assert Runs(s0, []) && End(s0, []) == s0;
    s := Realised(s0, s0, moves);
  }

  /** Once the atomic buffer is stuck, the calls in progress only run into sleep. */
  lemma {:induction false} LeadsToHalt(root: System, s: System) returns (s': System)
    requires Leads(root, s) && Inv(s) && BT.Stuck(Abs(s))
    ensures Leads(root, s') && Inv(s') && Halted(s') && Abs(s') == Abs(s)
    decreases Work(s) + 12 * |s.inside|
  {
    WorkFloor(s);
    if Halted(s) {
      s' := s;
    } else {
      var t, c :| Fires(s, t, c) && !c.Spurious?;
      StepRefines(s, t, c);
      StepWork(s, t, c);
      LeadsOn(root, s, t, c);
      WorkFloor(After(s, t, c));
      s' := LeadsToHalt(root, After(s, t, c));
    }
  }

  lemma HaltsUnfinished(cap: nat, n: int, search: int -> int, p: nat, c: nat, b: B.Buffer) returns (s: System)
    requires B.Ascending(search) && BT.Reachable(cap, n, search, p, c, b) && BT.Stuck(b) && !BT.Finished(b)
    ensures Reachable(cap, n, search, p, c, s) && Halted(s) && !Finished(s)
  {
    s := ReachesAtomic(cap, n, search, p, c, b);
    s := LeadsToHalt(Init(cap, n, search, p, c), s);
    assert s.prog.prods == b.prods && s.prog.cons == b.cons;
  }

  /** The program with its monitors: every run that halts has finished, exactly
      when there are at most as many consumers as producers and at most as many
      producers as slots. */
  lemma FinishesExactlyWhen(cap: nat, n: int, search: int -> int, p: nat, c: nat)
    requires B.Ascending(search)
    ensures (forall s | Reachable(cap, n, search, p, c, s) && Halted(s) :: Finished(s)) <==> c <= p <= cap
  {
    if c <= p <= cap {
      forall s | Reachable(cap, n, search, p, c, s) && Halted(s) ensures Finished(s) {
        NoDeadlock(cap, n, search, p, c, s);
      }
    } else {
      var b;
      if p > cap {
        b := BT.TooManyProducersJam(cap, n, search, p, c);
      } else {
        b := BT.TooManyConsumersStarve(cap, n, search, p, c);
      }
      var s := HaltsUnfinished(cap, n, search, p, c, b);
    }
  }
}
