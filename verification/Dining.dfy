/** The dining philosophers of `diningPhilosopher/dine.cpp` and `dineWin.cpp`
    for a ring of any size N >= 3, one semaphore operation or one statement on
    `state[]` per step.

    EATING is 0 and `state[]` is a zero-initialised global, so every philosopher
    starts in the phase `Eating` without having been put there: a phantom eater,
    until its first `take_fork`. */
module Dining {
  datatype Phase = Eating | Hungry | Thinking

  /** The next action of a philosopher; `first` marks the first `take_fork`. */
  datatype Pc =
    | Think(first: bool)
    | SetHungry(first: bool)
    | TestSelf(first: bool)
    | PostSelf(first: bool)
    | LeaveTake(first: bool)
    | Await
    | Eat
    | SetThinking
    | TestLeft
    | PostLeft
    | TestRight
    | PostRight
    | LeavePut

  /** `mutex` and `sem` are semaphore values; `last` remembers the phases at the
      last moment the mutex was free. */
  datatype Table = Table(st: seq<Phase>, sem: seq<nat>, mutex: nat, pc: seq<Pc>, last: seq<Phase>)

  function Left(n: nat, i: nat): (j: nat)
    requires i < n
    ensures j < n
  {
    if i == 0 then n - 1 else i - 1
  }

  function Right(n: nat, i: nat): (j: nat)
    requires i < n
    ensures j < n
  {
    if i == n - 1 then 0 else i + 1
  }

  /** LEFT and RIGHT as the program computes them, and that they are inverse. */
  lemma RingIsModular(n: nat, i: nat)
    requires i < n
    ensures Left(n, i) == (i + n - 1) % n && Right(n, i) == (i + 1) % n
    ensures Left(n, Right(n, i)) == i == Right(n, Left(n, i))
  {
    Wraps(n, i + n - 1);
    Wraps(n, i + 1);
  }

  lemma Wraps(n: nat, k: nat)
    requires k < 2 * n
    ensures k % n == if k < n then k else k - n
  {
    if k >= n {
      assert k == n * 1 + (k - n);
      assert k / n == 1;
    }
  }

  function Init(n: nat): Table {
    Table(seq(n, i => Eating), seq(n, i => 0), 1, seq(n, i => Think(true)), seq(n, i => Eating))
  }

  ghost predicate Sized(s: Table) {
    |s.st| >= 3 && |s.sem| == |s.pc| == |s.last| == |s.st|
  }

  predicate CanEat(st: seq<Phase>, i: nat)
    requires i < |st|
  {
    st[i] == Hungry && st[Left(|st|, i)] != Eating && st[Right(|st|, i)] != Eating
  }

  /** The effect of `test(i)` on the phases. */
  function TestAt(st: seq<Phase>, i: nat): (r: seq<Phase>)
    requires i < |st|
    ensures |r| == |st|
  {
    if CanEat(st, i) then st[i := Eating] else st
  }

  function TakeEffect(st: seq<Phase>, i: nat): (r: seq<Phase>)
    requires i < |st|
    ensures |r| == |st|
  {
    TestAt(st[i := Hungry], i)
  }

  function PutEffect(st: seq<Phase>, i: nat): (r: seq<Phase>)
    requires i < |st|
    ensures |r| == |st|
  {
    TestAt(TestAt(st[i := Thinking], Left(|st|, i)), Right(|st|, i))
  }

  /** From phases `st` to `st'`: first the left and then the right neighbour of `i`
      eats if it was hungry and the philosopher beyond it does not eat, and
      nobody else but `i` is touched. */
  ghost predicate Served(st: seq<Phase>, st': seq<Phase>, i: nat)
    requires 3 <= |st| == |st'| && i < |st|
  {
    var n := |st|;
    var l, r := Left(n, i), Right(n, i);
    && st'[l] == (if st[l] == Hungry && st[Left(n, l)] != Eating then Eating else st[l])
    && st'[r] == (if st[r] == Hungry && st'[Right(n, r)] != Eating then Eating else st[r])
    && forall j | 0 <= j < n && j != i && j != l && j != r :: st'[j] == st[j]
  }

  lemma PutEffectServes(st: seq<Phase>, i: nat)
    requires |st| >= 3 && i < |st|
    ensures PutEffect(st, i)[i] == Thinking && Served(st, PutEffect(st, i), i)
  {
    var n := |st|;
    var l, r := Left(n, i), Right(n, i);
    assert Right(n, l) == i && Left(n, r) == i && l != r && Left(n, l) != i && Right(n, r) != i;
    var mid := TestAt(st[i := Thinking], l);
    assert mid[l] == if st[l] == Hungry && st[Left(n, l)] != Eating then Eating else st[l];
    assert forall j | 0 <= j < n && j != i && j != l :: mid[j] == st[j];
  }

  ghost predicate Fires(s: Table, i: nat) {
    && Sized(s) && i < |s.st|
    && match s.pc[i]
       case Think(_) => s.mutex > 0
       case Await => s.sem[i] > 0
       case Eat => s.mutex > 0
       case _ => true
  }

  ghost function After(s: Table, i: nat): (s': Table)
    requires Fires(s, i)
    ensures Sized(s') && |s'.st| == |s.st|
  {
    var n := |s.st|;
    var l, r := Left(n, i), Right(n, i);
    match s.pc[i]
    // take_fork
    case Think(f) => s.(mutex := s.mutex - 1, pc := s.pc[i := SetHungry(f)])
    case SetHungry(f) => s.(st := s.st[i := Hungry], pc := s.pc[i := TestSelf(f)])
    case TestSelf(f) =>
      s.(st := TestAt(s.st, i), pc := s.pc[i := if CanEat(s.st, i) then PostSelf(f) else LeaveTake(f)])
    case PostSelf(f) => s.(sem := s.sem[i := s.sem[i] + 1], pc := s.pc[i := LeaveTake(f)])
    case LeaveTake(_) => s.(mutex := s.mutex + 1, last := s.st, pc := s.pc[i := Await])
    case Await => s.(sem := s.sem[i := s.sem[i] - 1], pc := s.pc[i := Eat])
    // put_fork
    case Eat => s.(mutex := s.mutex - 1, pc := s.pc[i := SetThinking])
    case SetThinking => s.(st := s.st[i := Thinking], pc := s.pc[i := TestLeft])
    case TestLeft =>
      s.(st := TestAt(s.st, l), pc := s.pc[i := if CanEat(s.st, l) then PostLeft else TestRight])
    case PostLeft => s.(sem := s.sem[l := s.sem[l] + 1], pc := s.pc[i := TestRight])
    case TestRight =>
      s.(st := TestAt(s.st, r), pc := s.pc[i := if CanEat(s.st, r) then PostRight else LeavePut])
    case PostRight => s.(sem := s.sem[r := s.sem[r] + 1], pc := s.pc[i := LeavePut])
    case LeavePut => s.(mutex := s.mutex + 1, last := s.st, pc := s.pc[i := Think(false)])
  }

  // ---------- hungry chains ----------

  function Next(n: nat, i: nat, right: bool): (j: nat)
    requires i < n
    ensures j < n
  {
    if right then Right(n, i) else Left(n, i)
  }

  /** Going `d` places in one direction leads over hungry philosophers only, to an eating one. */
  predicate Reach(st: seq<Phase>, i: nat, right: bool, d: nat)
    requires i < |st|
    decreases d
  {
    && d >= 1
    && var j := Next(|st|, i, right);
       if d == 1 then st[j] == Eating else st[j] == Hungry && Reach(st, j, right, d - 1)
  }

  ghost predicate Connected(st: seq<Phase>, i: nat)
    requires i < |st|
  {
    exists right, d :: Reach(st, i, right, d)
  }

  ghost predicate HungryConnected(st: seq<Phase>) {
    forall i | 0 <= i < |st| && st[i] == Hungry :: Connected(st, i)
  }

  /** A phantom that turns hungry is itself blocked, so chains that ended at it go on. */
  lemma {:induction false} PathOverPhantom(st: seq<Phase>, st': seq<Phase>, x: nat, i: nat, right: bool, d: nat) returns (d': nat)
    requires |st| >= 3 && |st'| == |st| && x < |st| && i < |st| && i != x
    requires Reach(st, i, right, d) && st'[i] == Hungry
    requires st[x] != Hungry && st' == st[x := Hungry]
    requires st'[Left(|st|, x)] == Eating || st'[Right(|st|, x)] == Eating
    ensures Reach(st', i, right, d')
    decreases d
  {
    var j := Next(|st|, i, right);
    if j == x {
      assert Reach(st', x, right, 1);
      d' := 2;
    } else if d == 1 {
      d' := 1;
    } else {
      var e := PathOverPhantom(st, st', x, j, right, d - 1);
      d' := e + 1;
    }
  }

  /** New eaters only shorten a chain, and a thinker is on none. */
  lemma {:induction false} PathAround(st: seq<Phase>, st': seq<Phase>, x: nat, i: nat, right: bool, d: nat) returns (d': nat)
    requires |st| >= 3 && |st'| == |st| && x < |st| && i < |st|
    requires Reach(st, i, right, d) && st[x] == Thinking
    requires forall j | 0 <= j < |st| && j != x :: st'[j] == st[j]
    ensures Reach(st', i, right, d')
    decreases d
  {
    if d > 1 {
      var e := PathAround(st, st', x, Next(|st|, i, right), right, d - 1);
      d' := e + 1;
    } else {
      d' := 1;
    }
  }

  lemma TakeKeepsConnected(st: seq<Phase>, x: nat)
    requires |st| >= 3 && x < |st| && st[x] != Hungry && HungryConnected(st)
    ensures HungryConnected(TakeEffect(st, x))
  {
    var st' := TakeEffect(st, x);
    forall i | 0 <= i < |st| && st'[i] == Hungry ensures Connected(st', i) {
      if i == x {
        assert Reach(st', i, false, 1) || Reach(st', i, true, 1);
      } else {
        assert Connected(st, i);
        var right, d :| Reach(st, i, right, d);
        if st[x] == Thinking {
          var d' := PathAround(st, st', x, i, right, d);
        } else if CanEat(st[x := Hungry], x) {
          assert st' == st;
        } else {
          var d' := PathOverPhantom(st, st', x, i, right, d);
        }
      }
    }
  }

  /** After `put_fork` of `x` every chain that ended at `x` ends elsewhere. */
  lemma {:induction false} PathAfterPut(st: seq<Phase>, st': seq<Phase>, x: nat, i: nat, right: bool, d: nat)
    returns (right': bool, d': nat)
    requires |st| >= 3 && |st'| == |st| && x < |st| && i < |st|
    requires Reach(st, i, right, d) && st'[i] == Hungry
    requires st'[x] == Thinking && st[x] == Eating
    requires forall j | 0 <= j < |st| && j != x :: st'[j] == st[j] || (st[j] == Hungry && st'[j] == Eating)
    requires forall w: bool | st'[Next(|st|, x, w)] == Hungry :: st'[Next(|st|, Next(|st|, x, w), w)] == Eating
    ensures Reach(st', i, right', d')
    decreases d
  {
    var j := Next(|st|, i, right);
    assert Next(|st|, j, !right) == i;
    if j == x {
      right', d' := !right, 1;
    } else if st'[j] == Eating {
      right', d' := right, 1;
    } else {
      right', d' := PathAfterPut(st, st', x, j, right, d - 1);
      if right' == right {
        d' := d' + 1;
      } else {
        d' := d' - 1;
      }
    }
  }

  lemma PutKeepsConnected(st: seq<Phase>, x: nat)
    requires |st| >= 3 && x < |st| && st[x] == Eating && HungryConnected(st)
    requires st[Left(|st|, x)] != Eating && st[Right(|st|, x)] != Eating
    ensures HungryConnected(PutEffect(st, x))
  {
    var st' := PutEffect(st, x);
    forall i | 0 <= i < |st| && st'[i] == Hungry ensures Connected(st', i) {
      assert st[i] == Hungry;
      assert Connected(st, i);
      var right, d :| Reach(st, i, right, d);
      var right', d' := PathAfterPut(st, st', x, i, right, d);
    }
  }

  // ---------- hungry philosophers with no eating neighbour ----------

  ghost function Stranded(st: seq<Phase>): set<nat> {
    set i | 0 <= i < |st| && st[i] == Hungry && st[Left(|st|, i)] != Eating && st[Right(|st|, i)] != Eating
  }

  lemma TakeStrands(st: seq<Phase>, x: nat)
    requires |st| >= 3 && x < |st| && st[x] == Thinking
    ensures Stranded(TakeEffect(st, x)) <= Stranded(st)
  {
  }

  lemma PutStrands(st: seq<Phase>, x: nat)
    requires |st| >= 3 && x < |st| && st[x] == Eating
    requires st[Left(|st|, x)] != Eating && st[Right(|st|, x)] != Eating
    ensures Stranded(PutEffect(st, x)) <= Stranded(st)
  {
  }

  /** A hungry neighbour of `x` has no other eating neighbour. */
  ghost predicate LeavesStranded(st: seq<Phase>, x: nat)
    requires x < |st|
  {
    && (st[Left(|st|, x)] == Eating || st[Right(|st|, x)] == Eating)
    && exists right: bool ::
         st[Next(|st|, x, right)] == Hungry && st[Next(|st|, Next(|st|, x, right), right)] != Eating
  }

  /** A first `take_fork`, of a phantom, strands somebody exactly when the phantom
      has to wait and was the only eating neighbour of a hungry one. */
  lemma FirstTakeStrandsExactlyWhen(st: seq<Phase>, x: nat)
    requires |st| >= 3 && x < |st| && st[x] == Eating
    ensures !(Stranded(TakeEffect(st, x)) <= Stranded(st)) <==> LeavesStranded(st, x)
  {
    var st' := TakeEffect(st, x);
    var n := |st|;
    if LeavesStranded(st, x) {
      var right: bool :| st[Next(n, x, right)] == Hungry && st[Next(n, Next(n, x, right), right)] != Eating;
      var y := Next(n, x, right);
      assert Next(n, y, !right) == x;
      assert y in Stranded(st') && y !in Stranded(st);
    } else {
      forall y | y in Stranded(st') ensures y in Stranded(st) {
        if y != x {
          assert y == Next(n, x, true) || y == Next(n, x, false) || (Left(n, y) != x && Right(n, y) != x);
        }
      }
    }
  }
}
