/** The bounded buffer with its four semaphores as they are implemented: each is a
    monitor with a mutex and a condition variable, and a thread that calls `wait`
    or `post` goes through the monitor step by step.

    A thread is at a point of its own program and possibly inside a call on one
    semaphore.  Its program point moves on when the call decrements or increments
    the value; the thread takes no step of its own until it has left the call. */
module MonitorBuffer {
  import opened Basics
  import M = MonitorSemaphore
  import B = BoundedBuffer

  datatype Sem = Full | Empty | Sync | Other

  datatype Sems = Sems(full: M.Monitor, empty: M.Monitor, sync: M.Monitor, other: M.Monitor)

  function Get(sems: Sems, q: Sem): M.Monitor {
    match q
    case Full => sems.full
    case Empty => sems.empty
    case Sync => sems.sync
    case Other => sems.other
  }

  function Put(sems: Sems, q: Sem, m: M.Monitor): Sems {
    match q
    case Full => sems.(full := m)
    case Empty => sems.(empty := m)
    case Sync => sems.(sync := m)
    case Other => sems.(other := m)
  }

  /** What a thread does at a point of its program. */
  datatype Call = Wait(q: Sem) | Post(q: Sem) | Data | Done

  function ProducerCall(p: B.Producer): Call {
    match p
    case Enter => Wait(Other)
    case LockQueue => Wait(Sync)
    case TakeSlot => Wait(Empty)
    case LeaveOther => Post(Other)
    case UnlockQueue => Post(Sync)
    case SignalFull => Post(Full)
    case Produced => Done
    case _ => Data
  }

  function ConsumerCall(c: B.Consumer): Call {
    match c
    case AwaitItem => Wait(Full)
    case LockList => Wait(Sync)
    case UnlockList => Post(Sync)
    case ReturnSlot => Post(Empty)
    case Consumed => Done
    case _ => Data
  }

  function ProducerNext(p: B.Producer): B.Producer {
    match p
    case Enter => B.Seed
    case LockQueue => B.TakeSlot
    case TakeSlot => B.Search
    case LeaveOther => B.UnlockQueue
    case UnlockQueue => B.SignalFull
    case SignalFull => B.Produced
    case _ => p
  }

  function ConsumerNext(c: B.Consumer): B.Consumer {
    match c
    case AwaitItem => B.LockList
    case LockList => B.Front
    case UnlockList => B.ReturnSlot
    case ReturnSlot => B.Consumed
    case _ => c
  }

  /** `prog` holds the program points and the data; its four counters are unused.
      `inside[t]` is the semaphore that thread `t` is inside a call on.  Producers
      come first in the numbering of the threads. */
  datatype System = System(prog: B.Buffer, sems: Sems, inside: seq<Option<Sem>>)

  function Threads(b: B.Buffer): nat {
    |b.prods| + |b.cons|
  }

  function MoveOf(b: B.Buffer, t: nat): (m: B.Move)
    requires t < Threads(b)
  {
    if t < |b.prods| then B.Prod(t) else B.Cons(t - |b.prods|)
  }

  function CallAt(b: B.Buffer, t: nat): Call
    requires t < Threads(b)
  {
    if t < |b.prods| then ProducerCall(b.prods[t]) else ConsumerCall(b.cons[t - |b.prods|])
  }

  /** The program point of the thread moves past its semaphore call. */
  function Passed(b: B.Buffer, t: nat): B.Buffer
    requires t < Threads(b)
  {
    if t < |b.prods| then b.(prods := b.prods[t := ProducerNext(b.prods[t])])
    else b.(cons := b.cons[t - |b.prods| := ConsumerNext(b.cons[t - |b.prods|])])
  }

  function Init(cap: nat, n: int, search: int -> int, p: nat, c: nat): System {
    System(B.Init(cap, n, search, p, c), InitSems(cap, p + c), seq(p + c, t => None))
  }

  function InitSems(cap: nat, threads: nat): Sems {
    Sems(M.Init(0, threads), M.Init(cap, threads), M.Init(1, threads), M.Init(1, threads))
  }

  ghost predicate Sized(s: System) {
    && |s.inside| == Threads(s.prog)
    && forall q :: |Get(s.sems, q).pc| == |s.inside|
  }

  // ---------- steps ----------

  predicate Fires(s: System, t: nat, c: M.Choice) {
    && t < |s.inside| && t < Threads(s.prog)
    && match s.inside[t]
       case Some(q) => M.Fires(Get(s.sems, q), t, c)
       case None =>
         match CallAt(s.prog, t)
         case Wait(q) => c.Wait? && M.Fires(Get(s.sems, q), t, c)
         case Post(q) => c.Post? && M.Fires(Get(s.sems, q), t, c)
         case Data => c.Go? && B.Fires(s.prog, MoveOf(s.prog, t))
         case Done => false
  }

  /** A step inside the monitor of semaphore `q`. */
  function Enter(s: System, q: Sem, t: nat, c: M.Choice): System
    requires t < |s.inside| && t < Threads(s.prog) && M.Fires(Get(s.sems, q), t, c)
  {
    var m := Get(s.sems, q);
    var m' := M.After(m, t, c);
    System(
      if Effective(m, t, c) then Passed(s.prog, t) else s.prog,
      Put(s.sems, q, m'),
      s.inside[t := if t < |m'.pc| && !m'.pc[t].Idle? then Some(q) else None])
  }

  function After(s: System, t: nat, c: M.Choice): System
    requires Fires(s, t, c)
  {
    match s.inside[t]
    case Some(q) => Enter(s, q, t, c)
    case None =>
      match CallAt(s.prog, t)
      case Wait(q) => Enter(s, q, t, c)
      case Post(q) => Enter(s, q, t, c)
      case Data => s.(prog := B.After(s.prog, MoveOf(s.prog, t)))
      case Done => s
  }

  /** The monitor step decrements or increments the value. */
  predicate Effective(m: M.Monitor, t: nat, c: M.Choice)
    requires M.Fires(m, t, c)
  {
    M.LabelOf(m, t, c).Take? || M.LabelOf(m, t, c).Add?
  }

  // ---------- the buffer with atomic semaphores ----------

  function Abs(s: System): B.Buffer {
    s.prog.(full := s.sems.full.value, empty := s.sems.empty.value, sync := s.sems.sync.value, other := s.sems.other.value)
  }

  /** The step is one of the buffer with atomic semaphores, as opposed to none. */
  predicate Visible(s: System, t: nat, c: M.Choice)
    requires Fires(s, t, c)
  {
    match s.inside[t]
    case Some(q) => Effective(Get(s.sems, q), t, c)
    case None => CallAt(s.prog, t).Data?
  }

  // ---------- the invariant ----------

  /** How the state of a call fits the program point of its thread. */
  predicate Fits(call: Call, inside: Option<Sem>, q: Sem, status: M.Status) {
    if inside == Some(q) then
      && status != M.Ready
      && (status == M.Waiting ==> call == Wait(q))
      && (status == M.Posting ==> call == Post(q))
    else status == M.Ready
  }

  ghost predicate Attuned(s: System)
    requires Sized(s)
  {
    forall t, q | 0 <= t < |s.inside| ::
      Fits(CallAt(s.prog, t), s.inside[t], q, M.StatusOf(Get(s.sems, q).pc[t]))
  }

  ghost predicate Monitors(sems: Sems) {
    forall q :: M.Inv(Get(sems, q))
  }

  ghost predicate Inv(s: System) {
    Sized(s) && Monitors(s.sems) && Attuned(s) && B.Inv(Abs(s))
  }

  lemma InitMonitor(cap: nat, threads: nat, q: Sem)
    ensures M.Inv(Get(InitSems(cap, threads), q))
  {
    var v := match q case Full => 0 case Empty => cap case _ => 1;
    assert Get(InitSems(cap, threads), q) == M.Init(v, threads);
    M.InitInv(v, threads);
  }

  lemma InitMonitors(cap: nat, threads: nat)
    ensures Monitors(InitSems(cap, threads))
  {
    var sems := InitSems(cap, threads);
    forall q ensures M.Inv(Get(sems, q)) {
      InitMonitor(cap, threads, q);
    }
  }

  lemma InitAttuned(cap: nat, n: int, search: int -> int, p: nat, c: nat)
    ensures Sized(Init(cap, n, search, p, c)) && Attuned(Init(cap, n, search, p, c))
  {
  }

  lemma InvFromAbs(s: System, b: B.Buffer)
    requires Sized(s) && Monitors(s.sems) && Attuned(s) && Abs(s) == b && B.Inv(b)
    ensures Inv(s)
  {
  }

  lemma InitInv(cap: nat, n: int, search: int -> int, p: nat, c: nat)
    requires B.Ascending(search)
    ensures Inv(Init(cap, n, search, p, c)) && Abs(Init(cap, n, search, p, c)) == B.Init(cap, n, search, p, c)
  {
    B.InitInv(cap, n, search, p, c);
    InitMonitors(cap, p + c);
    InitAttuned(cap, n, search, p, c);
    assert Abs(Init(cap, n, search, p, c)) == B.Init(cap, n, search, p, c);
    InvFromAbs(Init(cap, n, search, p, c), B.Init(cap, n, search, p, c));
  }

  // ---------- one step of a monitor ----------

  function Shift(l: M.Label): int {
    if l.Take? then -1 else if l.Add? then 1 else 0
  }

  function StatusAfter(st: M.Status, l: M.Label): M.Status {
    match l
    case Stutter => st
    case CallWait(_) => M.Waiting
    case CallPost(_) => M.Posting
    case Take(_) => M.Finished
    case Add(_) => M.Finished
    case Ret(_) => M.Ready
  }

  /** What a monitor step does to its value and to the calls in progress. */
  lemma MonitorMoves(m: M.Monitor, t: nat, c: M.Choice)
    requires M.Inv(m) && M.Fires(m, t, c)
    ensures var m', l := M.After(m, t, c), M.LabelOf(m, t, c);
      && M.Inv(m') && |m'.pc| == |m.pc| && m'.value == m.value + Shift(l)
      && M.StatusOf(m'.pc[t]) == StatusAfter(M.StatusOf(m.pc[t]), l)
      && (forall u | 0 <= u < |m.pc| && u != t :: M.StatusOf(m'.pc[u]) == M.StatusOf(m.pc[u]))
      && (l.Take? ==> m.value > 0)
  {
    M.StepKeepsInv(m, t, c);
    M.Simulates(m, t, c);
    var a, a' := M.Abs(m), M.Abs(M.After(m, t, c));
    forall u | 0 <= u < |m.pc| && u != t ensures M.StatusOf(M.After(m, t, c).pc[u]) == M.StatusOf(m.pc[u]) {
      assert a'.status[u] == a.status[u];
    }
    assert a'.status[t] == M.StatusOf(M.After(m, t, c).pc[t]);
  }

  /** Which labels a call can produce. */
  lemma LabelFits(m: M.Monitor, t: nat, c: M.Choice)
    requires M.Fires(m, t, c)
    ensures var l, st := M.LabelOf(m, t, c), M.StatusOf(m.pc[t]);
      && (l.Take? ==> st == M.Waiting) && (l.Add? ==> st == M.Posting) && (l.Ret? ==> st == M.Finished)
      && (st == M.Ready <==> l.CallWait? || l.CallPost?)
      && (l.CallWait? ==> c.Wait?) && (l.CallPost? ==> c.Post?)
  {
  }
}
