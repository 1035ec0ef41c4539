/** The bounded buffer of primes of `boundedBuffer/boundedBuffer.cpp`: any number
    of producers and consumers around a queue, four semaphores and the shared
    `nextPrime`.  Note that `emptySlots` is awaited while `syncPrimes` is held.

    The semaphores are atomic counters here; MonitorSemaphore shows that the
    monitor implementation refines them.  `search` stands for the value that
    `Primes::getNextPrime` returns for its argument. */
module BoundedBuffer {
  import opened Basics

  datatype Producer =
    | Enter            // otherPrime.wait()
    | Seed             // if (primer > nextPrime) nextPrime = primer
    | LockQueue        // syncPrimes.wait()
    | TakeSlot         // emptySlots.wait()
    | Search           // getNextPrime(nextPrime)
    | Push(data: int)
    | Remember(data: int)
    | LeaveOther       // otherPrime.post()
    | UnlockQueue      // syncPrimes.post()
    | SignalFull       // fullSlots.post()
    | Produced

  datatype Consumer =
    | AwaitItem        // fullSlots.wait()
    | LockList         // syncPrimes.wait()
    | Front
    | Pop(data: int)
    | UnlockList       // syncPrimes.post()
    | ReturnSlot       // emptySlots.post()
    | Consumed

  /** `pushed` and `popped` record what has gone through the queue. */
  datatype Buffer = Buffer(
    cap: nat, start: int, search: int -> int,
    next: int, queue: seq<int>,
    full: int, empty: int, sync: int, other: int,
    prods: seq<Producer>, cons: seq<Consumer>,
    pushed: seq<int>, popped: seq<int>)

  datatype Move = Prod(i: nat) | Cons(i: nat)

  function Init(cap: nat, n: int, search: int -> int, p: nat, c: nat): Buffer {
    Buffer(cap, n, search, 1, [], 0, cap, 1, 1, seq(p, i => Enter), seq(c, i => AwaitItem), [], [])
  }

  predicate Fires(s: Buffer, m: Move) {
    match m
    case Prod(i) =>
      && i < |s.prods|
      && (match s.prods[i]
          case Enter => s.other > 0
          case LockQueue => s.sync > 0
          case TakeSlot => s.empty > 0
          case Produced => false
          case _ => true)
    case Cons(i) =>
      && i < |s.cons|
      && (match s.cons[i]
          case AwaitItem => s.full > 0
          case LockList => s.sync > 0
          case Front => s.queue != []
          case Pop(_) => s.queue != []
          case Consumed => false
          case _ => true)
  }

  function After(s: Buffer, m: Move): Buffer
    requires Fires(s, m)
  {
    match m
    case Prod(i) => (
      match s.prods[i]
      case Enter => s.(other := s.other - 1, prods := s.prods[i := Seed])
      case Seed => s.(next := if s.start > s.next then s.start else s.next, prods := s.prods[i := LockQueue])
      case LockQueue => s.(sync := s.sync - 1, prods := s.prods[i := TakeSlot])
      case TakeSlot => s.(empty := s.empty - 1, prods := s.prods[i := Search])
      case Search => s.(prods := s.prods[i := Push(s.search(s.next))])
      case Push(d) => s.(queue := s.queue + [d], pushed := s.pushed + [d], prods := s.prods[i := Remember(d)])
      case Remember(d) => s.(next := d, prods := s.prods[i := LeaveOther])
      case LeaveOther => s.(other := s.other + 1, prods := s.prods[i := UnlockQueue])
      case UnlockQueue => s.(sync := s.sync + 1, prods := s.prods[i := SignalFull])
      case SignalFull => s.(full := s.full + 1, prods := s.prods[i := Produced])
      case Produced => s)
    case Cons(i) => (
      match s.cons[i]
      case AwaitItem => s.(full := s.full - 1, cons := s.cons[i := LockList])
      case LockList => s.(sync := s.sync - 1, cons := s.cons[i := Front])
      case Front => s.(cons := s.cons[i := Pop(s.queue[0])])
      case Pop(d) => s.(queue := s.queue[1..], popped := s.popped + [s.queue[0]], cons := s.cons[i := UnlockList])
      case UnlockList => s.(sync := s.sync + 1, cons := s.cons[i := ReturnSlot])
      case ReturnSlot => s.(empty := s.empty + 1, cons := s.cons[i := Consumed])
      case Consumed => s)
  }

  // ---------- who is where ----------

  ghost function InOther(): Producer -> int {
    (p: Producer) => if p.Enter? || p.UnlockQueue? || p.SignalFull? || p.Produced? then 0 else 1
  }

  ghost function ProducerInSync(): Producer -> int {
    (p: Producer) =>
      if p.TakeSlot? || p.Search? || p.Push? || p.Remember? || p.LeaveOther? || p.UnlockQueue? then 1 else 0
  }

  ghost function ConsumerInSync(): Consumer -> int {
    (c: Consumer) => if c.Front? || c.Pop? || c.UnlockList? then 1 else 0
  }

  /** A slot is taken and not yet filled. */
  ghost function Reserved(): Producer -> int {
    (p: Producer) => if p.Search? || p.Push? then 1 else 0
  }

  /** The element is in the queue and not yet announced. */
  ghost function Unposted(): Producer -> int {
    (p: Producer) => if p.Remember? || p.LeaveOther? || p.UnlockQueue? || p.SignalFull? then 1 else 0
  }

  ghost function HasPushed(): Producer -> int {
    (p: Producer) => if p.Remember? || p.LeaveOther? || p.UnlockQueue? || p.SignalFull? || p.Produced? then 1 else 0
  }

  /** Admitted by `fullSlots` and not yet served. */
  ghost function Admitted(): Consumer -> int {
    (c: Consumer) => if c.LockList? || c.Front? || c.Pop? then 1 else 0
  }

  /** The element is gone and its slot not yet given back. */
  ghost function Vacated(): Consumer -> int {
    (c: Consumer) => if c.UnlockList? || c.ReturnSlot? then 1 else 0
  }

  ghost function HasPopped(): Consumer -> int {
    (c: Consumer) => if c.UnlockList? || c.ReturnSlot? || c.Consumed? then 1 else 0
  }

  // ---------- the invariant ----------

  ghost predicate Locks(s: Buffer) {
    && s.other >= 0 && s.sync >= 0
    && s.other + Total(s.prods, InOther()) == 1
    && s.sync + Total(s.prods, ProducerInSync()) + Total(s.cons, ConsumerInSync()) == 1
  }

  ghost predicate Slots(s: Buffer) {
    && s.empty >= 0 && s.full >= 0
    && s.empty + |s.queue| + Total(s.prods, Reserved()) + Total(s.cons, Vacated()) == s.cap
    && |s.queue| == s.full + Total(s.prods, Unposted()) + Total(s.cons, Admitted())
    && |s.pushed| == Total(s.prods, HasPushed())
    && |s.popped| == Total(s.cons, HasPopped())
  }

  function First(n: int): int {
    if n > 1 then n else 1
  }

  function LastValue(s: Buffer): int {
    if s.pushed == [] then First(s.start) else s.pushed[|s.pushed| - 1]
  }

  /** Each value is what the search returns for the preceding one, beginning with `max(1, n)`. */
  ghost predicate Consecutive(search: int -> int, n: int, values: seq<int>) {
    forall k | 0 <= k < |values| :: values[k] == search(Preceding(n, values, k))
  }

  function Preceding(n: int, values: seq<int>, k: nat): int
    requires k < |values|
  {
    if k == 0 then First(n) else values[k - 1]
  }

  ghost predicate ProducerOk(s: Buffer, p: Producer) {
    match p
    case Seed => s.next == LastValue(s) || (s.pushed == [] && s.next == 1)
    case LockQueue => s.next == LastValue(s)
    case TakeSlot => s.next == LastValue(s)
    case Search => s.next == LastValue(s)
    case Push(d) => s.next == LastValue(s) && d == s.search(s.next)
    case Remember(d) => s.pushed != [] && d == LastValue(s)
    case LeaveOther => s.next == LastValue(s)
    case _ => true
  }

  ghost predicate Fifo(s: Buffer) {
    s.popped + s.queue == s.pushed && Consecutive(s.search, s.start, s.pushed)
  }

  ghost predicate Shared(s: Buffer) {
    && (s.other == 1 ==> s.next == LastValue(s) || (s.pushed == [] && s.next == 1))
    && (forall i | 0 <= i < |s.prods| :: ProducerOk(s, s.prods[i]))
  }

  ghost predicate Fronts(s: Buffer) {
    forall i | 0 <= i < |s.cons| && s.cons[i].Pop? :: s.queue != [] && s.queue[0] == s.cons[i].data
  }

  ghost predicate Ascending(search: int -> int) {
    forall x :: search(x) > x
  }

  ghost predicate Inv(s: Buffer) {
    Locks(s) && Slots(s) && Fifo(s) && Shared(s) && Fronts(s) && Ascending(s.search)
  }

  lemma InitInv(cap: nat, n: int, search: int -> int, p: nat, c: nat)
    requires Ascending(search)
    ensures Inv(Init(cap, n, search, p, c))
  {
    var s := Init(cap, n, search, p, c);
    TotalZero(s.prods, InOther());
    TotalZero(s.prods, ProducerInSync());
    TotalZero(s.prods, Reserved());
    TotalZero(s.prods, Unposted());
    TotalZero(s.prods, HasPushed());
    TotalZero(s.cons, ConsumerInSync());
    TotalZero(s.cons, Admitted());
    TotalZero(s.cons, Vacated());
    TotalZero(s.cons, HasPopped());
  }

  // ---------- preservation ----------

  lemma ProducerCounters(s: Buffer, i: nat)
    requires Locks(s) && Slots(s) && Fires(s, Prod(i))
    ensures Locks(After(s, Prod(i))) && Slots(After(s, Prod(i)))
  {
    var p' := After(s, Prod(i)).prods[i];
    TotalUpdate(s.prods, i, p', InOther());
    TotalUpdate(s.prods, i, p', ProducerInSync());
    TotalUpdate(s.prods, i, p', Reserved());
    TotalUpdate(s.prods, i, p', Unposted());
    TotalUpdate(s.prods, i, p', HasPushed());
  }

  lemma ConsumerCounters(s: Buffer, i: nat)
    requires Locks(s) && Slots(s) && Fires(s, Cons(i))
    ensures Locks(After(s, Cons(i))) && Slots(After(s, Cons(i)))
  {
    var c' := After(s, Cons(i)).cons[i];
    TotalUpdate(s.cons, i, c', ConsumerInSync());
    TotalUpdate(s.cons, i, c', Admitted());
    TotalUpdate(s.cons, i, c', Vacated());
    TotalUpdate(s.cons, i, c', HasPopped());
  }

  lemma ProducersApart(s: Buffer, i: nat, k: nat, w: Producer -> int)
    requires i < |s.prods| && k < |s.prods| && i != k
    requires forall j | 0 <= j < |s.prods| :: w(s.prods[j]) >= 0
    requires Total(s.prods, w) <= 1 && w(s.prods[i]) == 1
    ensures w(s.prods[k]) <= 0
  {
    if i < k {
      TotalAtLeastTwo(s.prods, i, k, w);
    } else {
      TotalAtLeastTwo(s.prods, k, i, w);
    }
  }

  lemma ConsumersApart(s: Buffer, i: nat, k: nat, w: Consumer -> int)
    requires i < |s.cons| && k < |s.cons| && i != k
    requires forall j | 0 <= j < |s.cons| :: w(s.cons[j]) >= 0
    requires Total(s.cons, w) <= 1 && w(s.cons[i]) == 1
    ensures w(s.cons[k]) <= 0
  {
    if i < k {
      TotalAtLeastTwo(s.cons, i, k, w);
    } else {
      TotalAtLeastTwo(s.cons, k, i, w);
    }
  }

  lemma {:induction false} AboveStart(search: int -> int, n: int, values: seq<int>)
    requires Ascending(search) && Consecutive(search, n, values) && values != []
    ensures values[|values| - 1] > First(n)
    decreases |values|
  {
    var k := |values| - 1;
    assert values[k] == search(Preceding(n, values, k));
    if k > 0 {
      var less := values[..k];
      assert forall j | 0 <= j < k :: Preceding(n, less, j) == Preceding(n, values, j);
      AboveStart(search, n, less);
    }
  }

  lemma ConsecutiveAppend(search: int -> int, n: int, values: seq<int>, d: int)
    requires Consecutive(search, n, values)
    requires d == search(if values == [] then First(n) else values[|values| - 1])
    ensures Consecutive(search, n, values + [d])
  {
    var more := values + [d];
    forall k | 0 <= k < |more| ensures more[k] == search(Preceding(n, more, k)) {
      if k < |values| {
        assert Preceding(n, more, k) == Preceding(n, values, k);
      }
    }
  }

  lemma FifoStep(s: Buffer, m: Move)
    requires Fifo(s) && Fires(s, m)
    requires m.Prod? ==> ProducerOk(s, s.prods[m.i])
    ensures Fifo(After(s, m))
  {
    var s' := After(s, m);
    if m.Prod? && s.prods[m.i].Push? {
      ConsecutiveAppend(s.search, s.start, s.pushed, s.prods[m.i].data);
      assert s'.popped + s'.queue == s.popped + s.queue + [s.prods[m.i].data];
    } else if m.Cons? && s.cons[m.i].Pop? {
      assert s'.popped + s'.queue == s.popped + s.queue;
    }
  }

  lemma OtherHeld(s: Buffer, i: nat)
    requires Locks(s) && i < |s.prods| && InOther()(s.prods[i]) == 1
    ensures s.other == 0
  {
    TotalAtLeast(s.prods, i, InOther());
  }

  /** What the holder of `otherPrime` knows after its step. */
  lemma SharedOwn(s: Buffer, i: nat)
    requires Fires(s, Prod(i)) && ProducerOk(s, s.prods[i])
    requires s.pushed != [] ==> LastValue(s) > First(s.start)
    requires s.other == 1 ==> s.next == LastValue(s) || (s.pushed == [] && s.next == 1)
    requires 0 <= s.other <= 1 && (InOther()(s.prods[i]) == 1 ==> s.other == 0)
    ensures var s' := After(s, Prod(i));
      && ProducerOk(s', s'.prods[i])
      && (s'.other == 1 ==> s'.next == LastValue(s') || (s'.pushed == [] && s'.next == 1))
  {
  }

  lemma SharedOther(s: Buffer, i: nat, k: nat)
    requires Fires(s, Prod(i)) && k < |s.prods| && k != i && ProducerOk(s, s.prods[k])
    requires InOther()(s.prods[i]) == 1 ==> InOther()(s.prods[k]) == 0
    ensures ProducerOk(After(s, Prod(i)), s.prods[k])
  {
  }

  lemma SharedStep(s: Buffer, i: nat)
    requires Locks(s) && Shared(s) && Fifo(s) && Ascending(s.search) && Fires(s, Prod(i))
    ensures Shared(After(s, Prod(i)))
  {
    var s' := After(s, Prod(i));
    if s.pushed != [] { AboveStart(s.search, s.start, s.pushed); }
    TotalNonNegative(s.prods, InOther());
    if InOther()(s.prods[i]) == 1 {
      OtherHeld(s, i);
    }
    SharedOwn(s, i);
    forall k | 0 <= k < |s'.prods| ensures ProducerOk(s', s'.prods[k]) {
      if k != i {
        if InOther()(s.prods[i]) == 1 {
          ProducersApart(s, i, k, InOther());
        }
        SharedOther(s, i, k);
      }
    }
  }

  lemma FrontsStep(s: Buffer, m: Move)
    requires Locks(s) && Fronts(s) && Fires(s, m)
    ensures Fronts(After(s, m))
  {
    var s' := After(s, m);
    TotalNonNegative(s.prods, ProducerInSync());
    forall k | 0 <= k < |s'.cons| && s'.cons[k].Pop? ensures s'.queue != [] && s'.queue[0] == s'.cons[k].data {
      if m.Cons? && k != m.i && s.cons[m.i].Pop? {
        ConsumersApart(s, m.i, k, ConsumerInSync());
      }
    }
  }

  lemma StepKeepsInv(s: Buffer, m: Move)
    requires Inv(s) && Fires(s, m)
    ensures Inv(After(s, m))
  {
    FifoStep(s, m);
    FrontsStep(s, m);
    if m.Prod? {
      ProducerCounters(s, m.i);
      SharedStep(s, m.i);
    } else {
      ConsumerCounters(s, m.i);
      SharedByConsumer(s, m.i);
    }
  }

  lemma SharedByConsumer(s: Buffer, i: nat)
    requires Shared(s) && Fires(s, Cons(i))
    ensures Shared(After(s, Cons(i)))
  {
    var s' := After(s, Cons(i));
    assert s'.next == s.next && s'.pushed == s.pushed && s'.start == s.start && s'.prods == s.prods && s'.other == s.other;
    forall k | 0 <= k < |s'.prods| ensures ProducerOk(s', s'.prods[k]) {
      assert ProducerOk(s, s.prods[k]);
    }
  }
}
