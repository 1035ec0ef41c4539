/** What holds of every run of the bounded buffer, and exactly when every run
    finishes. */
module BufferTheorems {
  import opened Basics
  import opened Primes
  import opened BoundedBuffer

  predicate Runs(s: Buffer, moves: seq<Move>)
    decreases |moves|
  {
    moves == [] || (Fires(s, moves[0]) && Runs(After(s, moves[0]), moves[1..]))
  }

  function End(s: Buffer, moves: seq<Move>): Buffer
    requires Runs(s, moves)
    decreases |moves|
  {
    if moves == [] then s else End(After(s, moves[0]), moves[1..])
  }

  /** The parts of the state that never change. */
  ghost predicate SameShape(s: Buffer, s': Buffer) {
    && s'.cap == s.cap && s'.start == s.start && s'.search == s.search
    && |s'.prods| == |s.prods| && |s'.cons| == |s.cons|
  }

  lemma {:induction false} RunKeepsInv(s: Buffer, moves: seq<Move>)
    requires Inv(s) && Runs(s, moves)
    ensures Inv(End(s, moves)) && SameShape(s, End(s, moves))
    decreases |moves|
  {
    if moves != [] {
      StepKeepsInv(s, moves[0]);
      RunKeepsInv(After(s, moves[0]), moves[1..]);
    }
  }

  ghost predicate Reachable(cap: nat, n: int, search: int -> int, p: nat, c: nat, s: Buffer) {
    exists moves :: Runs(Init(cap, n, search, p, c), moves) && End(Init(cap, n, search, p, c), moves) == s
  }

  lemma ReachableInv(cap: nat, n: int, search: int -> int, p: nat, c: nat, s: Buffer)
    requires Ascending(search) && Reachable(cap, n, search, p, c, s)
    ensures Inv(s) && SameShape(Init(cap, n, search, p, c), s)
  {
    var s0 := Init(cap, n, search, p, c);
    var moves :| Runs(s0, moves) && End(s0, moves) == s;
    InitInv(cap, n, search, p, c);
    RunKeepsInv(s0, moves);
  }

  // ---------- slots and values ----------

  /** Slots, queued elements and threads in flight add up; the queue never
      exceeds the capacity and no `front` or `pop` meets an empty queue. */
  lemma SlotAccounting(cap: nat, n: int, search: int -> int, p: nat, c: nat, s: Buffer)
    requires Ascending(search) && Reachable(cap, n, search, p, c, s)
    ensures s.empty + |s.queue| + Total(s.prods, Reserved()) + Total(s.cons, Vacated()) == cap
    ensures |s.queue| == s.full + Total(s.prods, Unposted()) + Total(s.cons, Admitted())
    ensures 0 <= |s.queue| <= cap && s.empty >= 0 && s.full >= 0
    ensures forall i | 0 <= i < |s.cons| && (s.cons[i].Front? || s.cons[i].Pop?) :: s.queue != []
  {
    ReachableInv(cap, n, search, p, c, s);
    TotalNonNegative(s.prods, Reserved());
    TotalNonNegative(s.cons, Vacated());
    TotalNonNegative(s.prods, Unposted());
    forall i | 0 <= i < |s.cons| && (s.cons[i].Front? || s.cons[i].Pop?) ensures s.queue != [] {
      TotalAtLeast(s.cons, i, Admitted());
    }
  }

  /** `nextPrime` is accessed by one producer at a time and the queue by one thread
      at a time: the sections of `otherPrime` and `syncPrimes` exclude each other. */
  lemma SectionsExclusive(cap: nat, n: int, search: int -> int, p: nat, c: nat, s: Buffer)
    requires Ascending(search) && Reachable(cap, n, search, p, c, s)
    ensures forall i, k | 0 <= i < |s.prods| && 0 <= k < |s.prods| && i != k ::
      InOther()(s.prods[i]) + InOther()(s.prods[k]) <= 1 && ProducerInSync()(s.prods[i]) + ProducerInSync()(s.prods[k]) <= 1
    ensures forall i, k | 0 <= i < |s.cons| && 0 <= k < |s.cons| && i != k ::
      ConsumerInSync()(s.cons[i]) + ConsumerInSync()(s.cons[k]) <= 1
    ensures forall i, k | 0 <= i < |s.prods| && 0 <= k < |s.cons| ::
      ProducerInSync()(s.prods[i]) + ConsumerInSync()(s.cons[k]) <= 1
  {
    ReachableInv(cap, n, search, p, c, s);
    TotalNonNegative(s.prods, ProducerInSync());
    TotalNonNegative(s.cons, ConsumerInSync());
    forall i, k | 0 <= i < |s.prods| && 0 <= k < |s.prods| && i != k
      ensures InOther()(s.prods[i]) + InOther()(s.prods[k]) <= 1 && ProducerInSync()(s.prods[i]) + ProducerInSync()(s.prods[k]) <= 1
    {
      if InOther()(s.prods[i]) == 1 { ProducersApart(s, i, k, InOther()); }
      if ProducerInSync()(s.prods[i]) == 1 { ProducersApart(s, i, k, ProducerInSync()); }
    }
    forall i, k | 0 <= i < |s.cons| && 0 <= k < |s.cons| && i != k
      ensures ConsumerInSync()(s.cons[i]) + ConsumerInSync()(s.cons[k]) <= 1
    {
      if ConsumerInSync()(s.cons[i]) == 1 { ConsumersApart(s, i, k, ConsumerInSync()); }
    }
    forall i, k | 0 <= i < |s.prods| && 0 <= k < |s.cons|
      ensures ProducerInSync()(s.prods[i]) + ConsumerInSync()(s.cons[k]) <= 1
    {
      TotalAtLeast(s.prods, i, ProducerInSync());
      TotalAtLeast(s.cons, k, ConsumerInSync());
    }
  }

  /** For any search that returns the next prime: the values pushed are the
      consecutive primes above max(1, n), and what was popped followed by the
      queue is what was pushed: first in, first out, each once. */
  lemma SearchedInOrder(cap: nat, n: int, search: int -> int, p: nat, c: nat, s: Buffer)
    requires forall x :: NextPrime(x, search(x))
    requires Reachable(cap, n, search, p, c, s)
    ensures s.popped + s.queue == s.pushed
    ensures forall k | 0 <= k < |s.pushed| :: NextPrime(Preceding(n, s.pushed, k), s.pushed[k])
    ensures forall i | 0 <= i < |s.cons| && s.cons[i].Pop? :: s.queue != [] && s.queue[0] == s.cons[i].data
  {
    SearchAscends(search);
    ReachableInv(cap, n, search, p, c, s);
  }

  lemma SearchAscends(search: int -> int)
    requires forall x :: NextPrime(x, search(x))
    ensures Ascending(search)
  {
    forall x ensures search(x) > x {
      assert NextPrime(x, search(x));
    }
  }

  /** What `getNextPrime` returns: by `Primes.GetNextPrime` and
      `Primes.NextPrimeUnique` this is the only value it can return. */
  ghost function SearchPrime(n: int): (p: int)
    ensures NextPrime(n, p)
  {
    NextPrimeExists(n);
    var p :| NextPrime(n, p);
    p
  }

  ghost function PrimeSearch(): int -> int {
    (x: int) => SearchPrime(x)
  }

  /** The values are all primes above `n` up to the last value, in ascending order, each once. */
  ghost predicate PrimesAbove(n: int, values: seq<int>) {
    && (forall i, j | 0 <= i < j < |values| :: values[i] < values[j])
    && (values != [] ==> forall q :: q in values <==> Prime(q) && n < q <= values[|values| - 1])
  }

  lemma {:induction false} PrimesAboveIs(n: int, values: seq<int>, k: nat)
    requires k <= |values| && forall j | 0 <= j < k :: NextPrime(Preceding(n, values, j), values[j])
    ensures PrimesAbove(n, values[..k])
  {
    if k == 0 {
      assert values[..k] == [];
    } else {
      PrimesAboveIs(n, values, k - 1);
      assert NextPrime(Preceding(n, values, k - 1), values[k - 1]);
      PrimesAboveNext(n, values, k - 1);
    }
  }

  lemma PrimesAboveNext(n: int, values: seq<int>, k: nat)
    requires k < |values| && PrimesAbove(n, values[..k]) && NextPrime(Preceding(n, values, k), values[k])
    ensures PrimesAbove(n, values[..k + 1])
  {
    assert values[..k + 1] == values[..k] + [values[k]];
    PrimesAboveMore(n, values[..k], values[k]);
  }

  /** One more prime, with none between the last value, or `n`, and it. */
  lemma PrimesAboveMore(n: int, less: seq<int>, last: int)
    requires PrimesAbove(n, less) && NextPrime(if less == [] then First(n) else less[|less| - 1], last)
    ensures PrimesAbove(n, less + [last])
  {
    var before := if less == [] then First(n) else less[|less| - 1];
    if less != [] {
      assert before in less;
    }
    forall q ensures q in less + [last] <==> Prime(q) && n < q <= last {
      assert before < q < last ==> !Prime(q);
    }
  }

  /** The program itself, whose search is `getNextPrime`. */
  lemma PrimesInOrder(cap: nat, n: int, p: nat, c: nat, s: Buffer)
    requires Reachable(cap, n, PrimeSearch(), p, c, s)
    ensures s.popped + s.queue == s.pushed
    ensures forall k | 0 <= k < |s.pushed| :: NextPrime(Preceding(n, s.pushed, k), s.pushed[k])
    ensures PrimesAbove(n, s.pushed)
    ensures forall i | 0 <= i < |s.cons| && s.cons[i].Pop? :: s.queue != [] && s.queue[0] == s.cons[i].data
  {
    SearchedInOrder(cap, n, PrimeSearch(), p, c, s);
    assert s.pushed[..|s.pushed|] == s.pushed;
    PrimesAboveIs(n, s.pushed, |s.pushed|);
  }

  lemma NextPrimeExists(n: int)
    ensures exists p :: NextPrime(n, p)
  {
    var q := PrimeAbove(n);
    var k := n + 1;
    while !Prime(k)
      invariant n < k <= q && forall j | n < j < k :: !Prime(j)
      decreases q - k
    {
      k := k + 1;
    }
    assert NextPrime(n, k);
  }

  // ---------- every run is finite ----------

  ghost function ProducerSteps(): Producer -> int {
    (p: Producer) =>
      match p
      case Enter => 10
      case Seed => 9
      case LockQueue => 8
      case TakeSlot => 7
      case Search => 6
      case Push(_) => 5
      case Remember(_) => 4
      case LeaveOther => 3
      case UnlockQueue => 2
      case SignalFull => 1
      case Produced => 0
  }

  ghost function ConsumerSteps(): Consumer -> int {
    (c: Consumer) =>
      match c
      case AwaitItem => 6
      case LockList => 5
      case Front => 4
      case Pop(_) => 3
      case UnlockList => 2
      case ReturnSlot => 1
      case Consumed => 0
  }

  ghost function Work(s: Buffer): int {
    Total(s.prods, ProducerSteps()) + Total(s.cons, ConsumerSteps())
  }

  lemma WorkNonNegative(s: Buffer)
    ensures Work(s) >= 0
  {
    TotalNonNegative(s.prods, ProducerSteps());
    TotalNonNegative(s.cons, ConsumerSteps());
  }

  lemma WorkShrinks(s: Buffer, m: Move)
    requires Fires(s, m)
    ensures Work(After(s, m)) == Work(s) - 1
  {
    if m.Prod? {
      TotalUpdate(s.prods, m.i, After(s, m).prods[m.i], ProducerSteps());
    } else {
      TotalUpdate(s.cons, m.i, After(s, m).cons[m.i], ConsumerSteps());
    }
  }

  lemma {:induction false} RunLength(s: Buffer, moves: seq<Move>)
    requires Runs(s, moves)
    ensures |moves| == Work(s) - Work(End(s, moves))
    decreases |moves|
  {
    if moves != [] {
      WorkShrinks(s, moves[0]);
      RunLength(After(s, moves[0]), moves[1..]);
    }
  }

  /** No run is longer than ten steps per producer and six per consumer. */
  lemma {:induction false} RunsAreBounded(cap: nat, n: int, search: int -> int, p: nat, c: nat, moves: seq<Move>)
    requires Runs(Init(cap, n, search, p, c), moves)
    ensures |moves| <= 10 * p + 6 * c
  {
    var s := Init(cap, n, search, p, c);
    RunLength(s, moves);
    WorkNonNegative(End(s, moves));
    TotalBound(s.prods, ProducerSteps(), 10);
    TotalBound(s.cons, ConsumerSteps(), 6);
  }

  // ---------- no deadlock ----------

  ghost predicate Finished(s: Buffer) {
    && (forall i | 0 <= i < |s.prods| :: s.prods[i].Produced?)
    && (forall i | 0 <= i < |s.cons| :: s.cons[i].Consumed?)
  }

  ghost predicate Stuck(s: Buffer) {
    forall m :: !Fires(s, m)
  }

  predicate ProducerWaits(p: Producer) {
    p.Enter? || p.LockQueue? || p.TakeSlot? || p.Produced?
  }

  predicate ConsumerWaits(c: Consumer) {
    c.AwaitItem? || c.LockList? || c.Consumed?
  }

  /** In a stuck state every thread is in front of a semaphore or through. */
  lemma StuckWaits(s: Buffer)
    requires Inv(s) && Stuck(s)
    ensures forall i | 0 <= i < |s.prods| :: ProducerWaits(s.prods[i])
    ensures forall i | 0 <= i < |s.cons| :: ConsumerWaits(s.cons[i])
  {
    forall i | 0 <= i < |s.prods| ensures ProducerWaits(s.prods[i]) {
      assert !Fires(s, Prod(i));
    }
    forall i | 0 <= i < |s.cons| ensures ConsumerWaits(s.cons[i]) {
      assert !Fires(s, Cons(i));
      if s.cons[i].Front? || s.cons[i].Pop? {
        TotalNonNegative(s.prods, Unposted());
        TotalAtLeast(s.cons, i, Admitted());
      }
    }
  }

  /** If all producers are in front of semaphores, blocked ones form a chain that
      ends at `emptySlots`: otherwise the first of them could go on. */
  lemma BlockedProducers(s: Buffer)
    requires Inv(s)
    requires forall i | 0 <= i < |s.prods| :: ProducerWaits(s.prods[i]) && !Fires(s, Prod(i))
    requires forall i | 0 <= i < |s.cons| :: !s.cons[i].Front? && !s.cons[i].Pop? && !s.cons[i].UnlockList?
    requires exists i | 0 <= i < |s.prods| :: !s.prods[i].Produced?
    ensures exists i | 0 <= i < |s.prods| :: s.prods[i].TakeSlot?
    ensures s.empty == 0
  {
    TotalZero(s.cons, ConsumerInSync());
    if forall i | 0 <= i < |s.prods| :: !s.prods[i].TakeSlot? {
      TotalZero(s.prods, ProducerInSync());
      if forall i | 0 <= i < |s.prods| :: !s.prods[i].LockQueue? {
        TotalZero(s.prods, InOther());
      }
    }
    var i :| 0 <= i < |s.prods| && s.prods[i].TakeSlot?;
    assert !Fires(s, Prod(i));
  }

  /** A full buffer means as many finished pushes as slots. */
  lemma FullBufferNeedsPushes(s: Buffer, i: nat)
    requires Inv(s) && i < |s.prods| && s.prods[i].TakeSlot? && s.empty == 0
    requires forall k | 0 <= k < |s.prods| :: ProducerWaits(s.prods[k])
    requires forall k | 0 <= k < |s.cons| :: ConsumerWaits(s.cons[k])
    ensures s.cap < |s.prods|
  {
    TotalZero(s.prods, Reserved());
    TotalZero(s.cons, Vacated());
    assert |s.queue| == s.cap;
    assert |s.pushed| >= |s.queue|;
    TotalUpdate(s.prods, i, Produced, HasPushed());
    TotalBound(s.prods[i := Produced], HasPushed(), 1);
  }

  lemma {:induction false} AllTotal<T>(xs: seq<T>, w: T -> int)
    requires forall i | 0 <= i < |xs| :: w(xs[i]) == 1
    ensures Total(xs, w) == |xs|
  {
    if |xs| > 0 {
      AllTotal(xs[1..], w);
    }
  }

  /** With the producers through, a consumer that finds nothing is one too many. */
  lemma StarvedConsumer(s: Buffer, i: nat)
    requires Inv(s) && Stuck(s) && i < |s.cons| && !s.cons[i].Consumed?
    requires forall k | 0 <= k < |s.prods| :: s.prods[k].Produced?
    ensures |s.cons| > |s.prods|
  {
    StuckWaits(s);
    TotalZero(s.prods, ProducerInSync());
    TotalZero(s.cons, ConsumerInSync());
    forall k | 0 <= k < |s.cons| ensures !s.cons[k].LockList? {
      assert !Fires(s, Cons(k));
    }
    assert !Fires(s, Cons(i));
    TotalZero(s.prods, Unposted());
    TotalZero(s.cons, Admitted());
    AllTotal(s.prods, HasPushed());
    assert s.queue == [];
    assert |s.popped| == |s.prods|;
    TotalUpdate(s.cons, i, Consumed, HasPopped());
    TotalBound(s.cons[i := Consumed], HasPopped(), 1);
  }

  /** With at most as many consumers as producers and at most as many producers
      as slots, every reachable unfinished state has an enabled step. */
  lemma NoDeadlock(cap: nat, n: int, search: int -> int, p: nat, c: nat, s: Buffer)
    requires Ascending(search) && Reachable(cap, n, search, p, c, s)
    requires c <= p <= cap
    ensures Finished(s) <==> Stuck(s)
  {
    ReachableInv(cap, n, search, p, c, s);
    if Stuck(s) {
      StuckWaits(s);
      if exists i :: 0 <= i < |s.prods| && !s.prods[i].Produced? {
        forall i | 0 <= i < |s.prods| ensures !Fires(s, Prod(i)) {}
        BlockedProducers(s);
        var i :| 0 <= i < |s.prods| && s.prods[i].TakeSlot?;
        FullBufferNeedsPushes(s, i);
      } else if exists i :: 0 <= i < |s.cons| && !s.cons[i].Consumed? {
        var i :| 0 <= i < |s.cons| && !s.cons[i].Consumed?;
        StarvedConsumer(s, i);
      }
    }
  }

  // ---------- the condition is exact ----------

  lemma {:induction false} RunsAppend(s: Buffer, moves: seq<Move>, m: Move)
    requires Runs(s, moves) && Fires(End(s, moves), m)
    ensures Runs(s, moves + [m]) && End(s, moves + [m]) == After(End(s, moves), m)
    decreases |moves|
  {
    var more := moves + [m];
    if moves == [] {
      assert more[1..] == [];
    } else {
      assert more[1..] == moves[1..] + [m];
      RunsAppend(After(s, moves[0]), moves[1..], m);
    }
  }

  ghost predicate Leads(s: Buffer, s': Buffer) {
    exists moves :: Runs(s, moves) && End(s, moves) == s'
  }

  lemma LeadsOn(s: Buffer, s': Buffer, m: Move)
    requires Leads(s, s') && Fires(s', m)
    ensures Leads(s, After(s', m))
  {
    var moves :| Runs(s, moves) && End(s, moves) == s';
    RunsAppend(s, moves, m);
  }

  /** Some producer waits for a slot with the queue locked, the buffer is full,
      and no consumer is past the queue lock. */
  ghost predicate Jammed(s: Buffer) {
    && s.empty == 0
    && (exists i | 0 <= i < |s.prods| :: s.prods[i].TakeSlot?)
    && (forall k | 0 <= k < |s.cons| :: s.cons[k].AwaitItem? || s.cons[k].LockList?)
  }

  lemma JamStays(s: Buffer, m: Move)
    requires Inv(s) && Jammed(s) && Fires(s, m)
    ensures Jammed(After(s, m))
  {
    var s' := After(s, m);
    var i :| 0 <= i < |s.prods| && s.prods[i].TakeSlot?;
    TotalAtLeast(s.prods, i, ProducerInSync());
    TotalNonNegative(s.cons, ConsumerInSync());
    assert s'.prods[i].TakeSlot?;
  }

  /** Any state leads to a stuck one; on the way a jam stays. */
  lemma {:induction false} LeadsToStuck(s0: Buffer, s: Buffer) returns (s': Buffer)
    requires Leads(s0, s) && Inv(s)
    ensures Leads(s0, s') && Inv(s') && Stuck(s') && (Jammed(s) ==> Jammed(s')) && SameShape(s, s')
    decreases Work(s)
  {
    WorkNonNegative(s);
    if Stuck(s) {
      s' := s;
    } else {
      var m :| Fires(s, m);
      LeadsOn(s0, s, m);
      StepKeepsInv(s, m);
      WorkShrinks(s, m);
      WorkNonNegative(After(s, m));
      if Jammed(s) { JamStays(s, m); }
      s' := LeadsToStuck(s0, After(s, m));
    }
  }

  /** Producers alone lead to a state where no producer can go on. */
  lemma {:induction false} ProducersFirst(s0: Buffer, s: Buffer) returns (s': Buffer)
    requires Leads(s0, s) && Inv(s) && forall k | 0 <= k < |s.cons| :: s.cons[k].AwaitItem?
    ensures Leads(s0, s') && Inv(s') && SameShape(s, s') && forall k | 0 <= k < |s'.cons| :: s'.cons[k].AwaitItem?
    ensures forall i | 0 <= i < |s'.prods| :: !Fires(s', Prod(i))
    decreases Work(s)
  {
    WorkNonNegative(s);
    if forall i | 0 <= i < |s.prods| :: !Fires(s, Prod(i)) {
      s' := s;
    } else {
      var i: nat :| i < |s.prods| && Fires(s, Prod(i));
      LeadsOn(s0, s, Prod(i));
      StepKeepsInv(s, Prod(i));
      WorkShrinks(s, Prod(i));
      WorkNonNegative(After(s, Prod(i)));
      s' := ProducersFirst(s0, After(s, Prod(i)));
    }
  }

  /** More producers than slots: producers that run first fill the buffer and one
      of them waits for a slot with the queue locked. */
  lemma TooManyProducersJam(cap: nat, n: int, search: int -> int, p: nat, c: nat) returns (s: Buffer)
    requires Ascending(search) && p > cap
    ensures Reachable(cap, n, search, p, c, s) && Stuck(s) && !Finished(s)
  {
    var s0 := Init(cap, n, search, p, c);
    InitInv(cap, n, search, p, c);
    assert Runs(s0, []) && End(s0, []) == s0;
    var s1 := ProducersFirst(s0, s0);
    forall i | 0 <= i < |s1.prods| ensures ProducerWaits(s1.prods[i]) {
      assert !Fires(s1, Prod(i));
    }
    assert exists i | 0 <= i < |s1.prods| :: !s1.prods[i].Produced? by {
      NotAllProduced(s1);
    }
    BlockedProducers(s1);
    assert Jammed(s1);
    s := LeadsToStuck(s0, s1);
  }

  lemma NotAllProduced(s: Buffer)
    requires Inv(s) && |s.prods| > s.cap && forall k | 0 <= k < |s.cons| :: s.cons[k].AwaitItem?
    ensures exists i | 0 <= i < |s.prods| :: !s.prods[i].Produced?
  {
    TotalZero(s.cons, HasPopped());
    assert s.popped == [];
    if forall i | 0 <= i < |s.prods| :: s.prods[i].Produced? {
      AllTotal(s.prods, HasPushed());
    }
    TotalNonNegative(s.prods, Reserved());
    TotalNonNegative(s.cons, Vacated());
  }

  /** More consumers than producers: every run that cannot go on leaves one waiting. */
  lemma TooManyConsumersStarve(cap: nat, n: int, search: int -> int, p: nat, c: nat) returns (s: Buffer)
    requires Ascending(search) && c > p
    ensures Reachable(cap, n, search, p, c, s) && Stuck(s) && !Finished(s)
  {
    var s0 := Init(cap, n, search, p, c);
    InitInv(cap, n, search, p, c);
    assert Runs(s0, []) && End(s0, []) == s0;
    s := LeadsToStuck(s0, s0);
    PopsBounded(s);
  }

  lemma PopsBounded(s: Buffer)
    requires Inv(s) && |s.cons| > |s.prods|
    ensures !Finished(s)
  {
    TotalBound(s.prods, HasPushed(), 1);
    assert |s.popped| <= |s.pushed|;
    if forall i | 0 <= i < |s.cons| :: s.cons[i].Consumed? {
      AllTotal(s.cons, HasPopped());
    }
  }

  /** Every run that cannot go on has finished, exactly when there are at most as
      many consumers as producers and at most as many producers as slots. */
  lemma FinishesExactlyWhen(cap: nat, n: int, search: int -> int, p: nat, c: nat)
    requires Ascending(search)
    ensures (forall s | Reachable(cap, n, search, p, c, s) && Stuck(s) :: Finished(s)) <==> c <= p <= cap
  {
    if c <= p <= cap {
      forall s | Reachable(cap, n, search, p, c, s) && Stuck(s) ensures Finished(s) {
        NoDeadlock(cap, n, search, p, c, s);
      }
    } else if p > cap {
      var s := TooManyProducersJam(cap, n, search, p, c);
    } else {
      var s := TooManyConsumersStarve(cap, n, search, p, c);
    }
  }
}
