/** Invariants of the dining philosophers over every run from the all-zero
    initial state. */
module DiningTheorems {
  import opened Basics
  import opened Dining

  /** The philosopher holds the mutex. */
  predicate Inside(pc: Pc) {
    !pc.Think? && !pc.Await? && !pc.Eat?
  }

  ghost function Insiders(): Pc -> int {
    (pc: Pc) => if Inside(pc) then 1 else 0
  }

  /** Whose semaphore the philosopher is about to post. */
  function Posts(n: nat, pc: Pc, j: nat): Option<nat>
    requires j < n
  {
    match pc
    case PostSelf(_) => Some(j)
    case PostLeft => Some(Left(n, j))
    case PostRight => Some(Right(n, j))
    case _ => None
  }

  ghost predicate Pending(s: Table, i: nat)
    requires Sized(s)
  {
    exists j | 0 <= j < |s.st| :: Posts(|s.st|, s.pc[j], j) == Some(i)
  }

  /** Phase and semaphore of one philosopher, by where it is in its program. */
  ghost predicate PhilInv(pc: Pc, phase: Phase, tokens: nat, pending: bool) {
    match pc
    case Think(f) => phase == (if f then Eating else Thinking) && tokens == 0 && !pending
    case SetHungry(f) => phase == (if f then Eating else Thinking) && tokens == 0 && !pending
    case TestSelf(_) => phase == Hungry && tokens == 0 && !pending
    case PostSelf(_) => phase == Eating && tokens == 0
    case LeaveTake(_) => !pending && tokens == (if phase == Eating then 1 else 0) && phase != Thinking
    case Await =>
      || (phase == Hungry && tokens == 0 && !pending)
      || (phase == Eating && tokens == (if pending then 0 else 1))
    case Eat => phase == Eating && tokens == 0 && !pending
    case SetThinking => phase == Eating && tokens == 0 && !pending
    case _ => phase == Thinking && tokens == 0 && !pending
  }

  /** Put into the phase `Eating` by `test`, as opposed to the initial phantoms. */
  ghost predicate Real(pc: Pc, phase: Phase) {
    phase == Eating && pc != Think(true) && pc != SetHungry(true)
  }

  ghost predicate PutOk(st: seq<Phase>, i: nat)
    requires i < |st|
  {
    st[i] == Eating && st[Left(|st|, i)] != Eating && st[Right(|st|, i)] != Eating
  }

  /** What the holder of the mutex has done so far to the phases it found. */
  ghost predicate SectionInv(st: seq<Phase>, last: seq<Phase>, pc: Pc, i: nat)
    requires |st| == |last| && i < |st|
  {
    var n := |st|;
    match pc
    case SetHungry(f) => st == last && last[i] == (if f then Eating else Thinking)
    case TestSelf(f) => st == last[i := Hungry] && last[i] == (if f then Eating else Thinking)
    case PostSelf(f) => st == TakeEffect(last, i) && last[i] == (if f then Eating else Thinking)
    case LeaveTake(f) => st == TakeEffect(last, i) && last[i] == (if f then Eating else Thinking)
    case SetThinking => st == last && PutOk(last, i)
    case TestLeft => st == last[i := Thinking] && PutOk(last, i)
    case PostLeft => st == TestAt(last[i := Thinking], Left(n, i)) && PutOk(last, i)
    case TestRight => st == TestAt(last[i := Thinking], Left(n, i)) && PutOk(last, i)
    case PostRight => st == PutEffect(last, i) && PutOk(last, i)
    case LeavePut => st == PutEffect(last, i) && PutOk(last, i)
    case _ => true
  }

  ghost predicate MutexInv(s: Table) {
    && s.mutex + Total(s.pc, Insiders()) == 1
    && (s.mutex == 1 ==> s.st == s.last)
  }

  ghost predicate Neighbours(s: Table)
    requires Sized(s)
  {
    forall i | 0 <= i < |s.st| && Real(s.pc[i], s.st[i]) ::
      s.st[Left(|s.st|, i)] != Eating && s.st[Right(|s.st|, i)] != Eating
  }

  ghost predicate Inv(s: Table) {
    && Sized(s)
    && MutexInv(s)
    && (forall i | 0 <= i < |s.st| :: SectionInv(s.st, s.last, s.pc[i], i))
    && HungryConnected(s.last)
    && (forall i | 0 <= i < |s.st| :: PhilInv(s.pc[i], s.st[i], s.sem[i], Pending(s, i)))
    && Neighbours(s)
  }

  lemma InitInv(n: nat)
    requires n >= 3
    ensures Inv(Init(n))
  {
    TotalZero(Init(n).pc, Insiders());
  }

  lemma OneInside(s: Table, i: nat, u: nat)
    requires MutexInv(s) && i < |s.pc| && u < |s.pc| && i != u && Inside(s.pc[i])
    ensures !Inside(s.pc[u]) && s.mutex == 0
  {
    if i < u {
      TotalAtLeastTwo(s.pc, i, u, Insiders());
    } else {
      TotalAtLeastTwo(s.pc, u, i, Insiders());
    }
  }

  lemma FreeMeansNobody(s: Table, u: nat)
    requires MutexInv(s) && s.mutex > 0 && u < |s.pc|
    ensures !Inside(s.pc[u])
  {
    TotalAtLeast(s.pc, u, Insiders());
  }

  // ---------- preservation ----------

  lemma MutexStep(s: Table, i: nat)
    requires Fires(s, i) && MutexInv(s)
    ensures MutexInv(After(s, i))
  {
    var s' := After(s, i);
    TotalUpdate(s.pc, i, s'.pc[i], Insiders());
    TotalAtLeast(s.pc, i, Insiders());
    TotalNonNegative(s'.pc, Insiders());
    if !Inside(s.pc[i]) && s.mutex > 0 {
      assert s'.st == s.st;
    }
  }

  lemma SectionOwn(s: Table, i: nat)
    requires Fires(s, i) && SectionInv(s.st, s.last, s.pc[i], i) && (s.mutex == 1 ==> s.st == s.last) && s.mutex <= 1
    requires s.pc[i].Think? ==> s.st[i] == (if s.pc[i].first then Eating else Thinking)
    requires s.pc[i].Eat? ==> PutOk(s.st, i)
    ensures SectionInv(After(s, i).st, After(s, i).last, After(s, i).pc[i], i)
  {
  }

  lemma SectionOther(s: Table, i: nat, u: nat)
    requires Fires(s, i) && u < |s.st| && u != i && SectionInv(s.st, s.last, s.pc[u], u)
    requires Inside(s.pc[i]) ==> !Inside(s.pc[u])
    ensures SectionInv(After(s, i).st, After(s, i).last, After(s, i).pc[u], u)
  {
  }

  lemma SectionStep(s: Table, i: nat)
    requires Inv(s) && Fires(s, i)
    ensures forall u | 0 <= u < |s.st| :: SectionInv(After(s, i).st, After(s, i).last, After(s, i).pc[u], u)
  {
    assert PhilInv(s.pc[i], s.st[i], s.sem[i], Pending(s, i));
    TotalNonNegative(s.pc, Insiders());
    SectionOwn(s, i);
    forall u | 0 <= u < |s.st| ensures SectionInv(After(s, i).st, After(s, i).last, After(s, i).pc[u], u) {
      if u != i {
        if Inside(s.pc[i]) { OneInside(s, i, u); }
        SectionOther(s, i, u);
      }
    }
  }

  lemma ConnectedStep(s: Table, i: nat)
    requires Fires(s, i) && SectionInv(s.st, s.last, s.pc[i], i) && HungryConnected(s.last)
    ensures HungryConnected(After(s, i).last)
  {
    if s.pc[i].LeaveTake? {
      TakeKeepsConnected(s.last, i);
    } else if s.pc[i].LeavePut? {
      PutKeepsConnected(s.last, i);
    }
  }

  lemma NeighboursAfterTest(s: Table, s': Table, j: nat)
    requires Sized(s) && Sized(s') && |s'.st| == |s.st| && Neighbours(s) && j < |s.st| && s'.st == TestAt(s.st, j)
    requires forall k | 0 <= k < |s.st| && Real(s'.pc[k], s'.st[k]) :: Real(s.pc[k], s.st[k]) || (k == j && CanEat(s.st, j))
    ensures Neighbours(s')
  {
  }

  lemma NeighboursShrink(s: Table, s': Table)
    requires Sized(s) && Sized(s') && |s'.st| == |s.st| && Neighbours(s)
    requires forall k | 0 <= k < |s.st| && s'.st[k] == Eating :: s.st[k] == Eating
    requires forall k | 0 <= k < |s.st| && Real(s'.pc[k], s'.st[k]) :: Real(s.pc[k], s.st[k])
    ensures Neighbours(s')
  {
  }

  lemma NeighbourStep(s: Table, i: nat)
    requires Fires(s, i) && Neighbours(s)
    requires forall k | 0 <= k < |s.st| && s.st[k] == Hungry :: !s.pc[k].Think? && !s.pc[k].SetHungry?
    ensures Neighbours(After(s, i))
  {
    var s' := After(s, i);
    var n := |s.st|;
    if s.pc[i].TestSelf? {
      NeighboursAfterTest(s, s', i);
    } else if s.pc[i].TestLeft? {
      NeighboursAfterTest(s, s', Left(n, i));
    } else if s.pc[i].TestRight? {
      NeighboursAfterTest(s, s', Right(n, i));
    } else {
      NeighboursShrink(s, s');
    }
  }

  // ---------- one philosopher at a time ----------

  /** Only the holder of the mutex is about to post, and only to a philosopher it has just let eat. */
  lemma PendingStep(s: Table, i: nat, u: nat)
    requires Fires(s, i) && u < |s.st| && MutexInv(s)
    ensures Pending(After(s, i), u) <==>
      || Posts(|s.st|, After(s, i).pc[i], i) == Some(u)
      || (!Inside(s.pc[i]) && Pending(s, u))
  {
    var s' := After(s, i);
    var n := |s.st|;
    if Posts(n, s'.pc[i], i) == Some(u) {
      assert Pending(s', u);
    }
    if Inside(s.pc[i]) {
      forall j | 0 <= j < n && j != i ensures Posts(n, s'.pc[j], j).None? {
        OneInside(s, i, j);
      }
    } else {
      if Pending(s, u) {
        var j :| 0 <= j < n && Posts(n, s.pc[j], j) == Some(u);
        assert Posts(n, s'.pc[j], j) == Some(u);
      }
      if Pending(s', u) && Posts(n, s'.pc[i], i) != Some(u) {
        var j :| 0 <= j < n && Posts(n, s'.pc[j], j) == Some(u);
        assert Posts(n, s.pc[j], j) == Some(u);
      }
    }
  }

  /** With the mutex holder's post done, nothing else is pending. */
  lemma PendingOwner(s: Table, i: nat, u: nat)
    requires Sized(s) && i < |s.st| && u < |s.st| && MutexInv(s) && Inside(s.pc[i])
    ensures Pending(s, u) <==> Posts(|s.st|, s.pc[i], i) == Some(u)
  {
    var n := |s.st|;
    forall j | 0 <= j < n && j != i ensures Posts(n, s.pc[j], j).None? {
      OneInside(s, i, j);
    }
  }

  lemma PhilOwn(s: Table, i: nat, before: bool, after: bool)
    requires Fires(s, i) && PhilInv(s.pc[i], s.st[i], s.sem[i], before)
    requires Inside(s.pc[i]) ==> (before <==> Posts(|s.st|, s.pc[i], i) == Some(i))
    requires after <==> Posts(|s.st|, After(s, i).pc[i], i) == Some(i) || (!Inside(s.pc[i]) && before)
    ensures PhilInv(After(s, i).pc[i], After(s, i).st[i], After(s, i).sem[i], after)
  {
  }

  lemma PhilOther(s: Table, i: nat, u: nat, before: bool, after: bool)
    requires Fires(s, i) && u < |s.st| && u != i && PhilInv(s.pc[u], s.st[u], s.sem[u], before)
    requires Inside(s.pc[i]) ==> !Inside(s.pc[u]) && (before <==> Posts(|s.st|, s.pc[i], i) == Some(u))
    requires after <==> Posts(|s.st|, After(s, i).pc[i], i) == Some(u) || (!Inside(s.pc[i]) && before)
    ensures PhilInv(After(s, i).pc[u], After(s, i).st[u], After(s, i).sem[u], after)
  {
  }

  lemma PhilStep(s: Table, i: nat)
    requires Inv(s) && Fires(s, i)
    ensures forall u | 0 <= u < |s.st| ::
      PhilInv(After(s, i).pc[u], After(s, i).st[u], After(s, i).sem[u], Pending(After(s, i), u))
  {
    forall u | 0 <= u < |s.st|
      ensures PhilInv(After(s, i).pc[u], After(s, i).st[u], After(s, i).sem[u], Pending(After(s, i), u))
    {
      PendingStep(s, i, u);
      if Inside(s.pc[i]) {
        PendingOwner(s, i, u);
      }
      if u == i {
        PhilOwn(s, i, Pending(s, u), Pending(After(s, i), u));
      } else {
        if Inside(s.pc[i]) { OneInside(s, i, u); }
        PhilOther(s, i, u, Pending(s, u), Pending(After(s, i), u));
      }
    }
  }

  lemma StepKeepsInv(s: Table, i: nat)
    requires Inv(s) && Fires(s, i)
    ensures Inv(After(s, i)) && |After(s, i).st| == |s.st|
  {
    MutexStep(s, i);
    SectionStep(s, i);
    ConnectedStep(s, i);
    PhilStep(s, i);
    forall k | 0 <= k < |s.st| && s.st[k] == Hungry ensures !s.pc[k].Think? && !s.pc[k].SetHungry? {
      assert PhilInv(s.pc[k], s.st[k], s.sem[k], Pending(s, k));
    }
    NeighbourStep(s, i);
  }

  // ---------- every run ----------

  ghost predicate Runs(s: Table, who: seq<nat>)
    decreases |who|
  {
    who == [] || (Fires(s, who[0]) && Runs(After(s, who[0]), who[1..]))
  }

  ghost function End(s: Table, who: seq<nat>): Table
    requires Runs(s, who)
    decreases |who|
  {
    if who == [] then s else End(After(s, who[0]), who[1..])
  }

  ghost predicate Reachable(n: nat, s: Table) {
    exists who :: Runs(Init(n), who) && End(Init(n), who) == s
  }

  lemma {:induction false} RunKeepsInv(s: Table, who: seq<nat>)
    requires Inv(s) && Runs(s, who)
    ensures Inv(End(s, who)) && |End(s, who).st| == |s.st|
    decreases |who|
  {
    if who != [] {
      StepKeepsInv(s, who[0]);
      RunKeepsInv(After(s, who[0]), who[1..]);
    }
  }

  lemma ReachableInv(n: nat, s: Table)
    requires n >= 3 && Reachable(n, s)
    ensures Inv(s) && |s.st| == n
  {
    var who :| Runs(Init(n), who) && End(Init(n), who) == s;
    InitInv(n);
    RunKeepsInv(Init(n), who);
  }

  /** Whenever the mutex is free, every hungry philosopher is linked through
      adjacent hungry ones to one in the phase `Eating`, phantom or real. */
  lemma HungryLinkedToEater(n: nat, s: Table)
    requires n >= 3 && Reachable(n, s) && s.mutex > 0
    ensures HungryConnected(s.st)
  {
    ReachableInv(n, s);
    TotalNonNegative(s.pc, Insiders());
  }

  /** `state[]` is accessed by one philosopher at a time: only the holder of the mutex accesses it. */
  lemma StateProtected(n: nat, s: Table, i: nat, u: nat)
    requires n >= 3 && Reachable(n, s) && i < n && u < n && i != u
    ensures |s.pc| == n && !(Inside(s.pc[i]) && Inside(s.pc[u]))
  {
    ReachableInv(n, s);
    if Inside(s.pc[i]) { OneInside(s, i, u); }
  }

  /** What `take_fork` has made of the phases it found, before it gives the mutex
      back: the philosopher eats exactly if neither neighbour was eating, and
      waits otherwise. */
  lemma TakeServes(n: nat, s: Table, i: nat)
    requires n >= 3 && Reachable(n, s) && i < n && |s.pc| == n && s.pc[i].LeaveTake?
    ensures |s.st| == |s.last| == n
    ensures var eats := s.last[Left(n, i)] != Eating && s.last[Right(n, i)] != Eating;
      s.st == s.last[i := if eats then Eating else Hungry]
  {
    ReachableInv(n, s);
    assert SectionInv(s.st, s.last, s.pc[i], i);
  }

  /** And `put_fork`: it thinks, first the left and then the right neighbour eats
      if it was hungry and the philosopher beyond it does not eat, and nobody
      else is touched. */
  lemma PutServes(n: nat, s: Table, i: nat)
    requires n >= 3 && Reachable(n, s) && i < n && |s.pc| == n && s.pc[i].LeavePut?
    ensures |s.st| == |s.last| == n && s.st[i] == Thinking && Served(s.last, s.st, i)
  {
    ReachableInv(n, s);
    assert SectionInv(s.st, s.last, s.pc[i], i);
    PutEffectServes(s.last, i);
  }

  /** A philosopher put into `Eating` by `test` has no neighbour in `Eating`, so
      two neighbours are never both between `sem_wait(&S[i])` and `put_fork`. */
  lemma NoNeighboursEatTogether(n: nat, s: Table, i: nat)
    requires n >= 3 && Reachable(n, s) && i < n
    ensures Inv(s) && |s.st| == n
    ensures Real(s.pc[i], s.st[i]) ==> s.st[Left(n, i)] != Eating && s.st[Right(n, i)] != Eating
    ensures s.pc[i].Eat? || s.pc[i].SetThinking? ==>
      && !s.pc[Left(n, i)].Eat? && !s.pc[Left(n, i)].SetThinking?
      && !s.pc[Right(n, i)].Eat? && !s.pc[Right(n, i)].SetThinking?
  {
    ReachableInv(n, s);
    assert PhilInv(s.pc[i], s.st[i], s.sem[i], Pending(s, i));
    assert PhilInv(s.pc[Left(n, i)], s.st[Left(n, i)], s.sem[Left(n, i)], Pending(s, Left(n, i)));
    assert PhilInv(s.pc[Right(n, i)], s.st[Right(n, i)], s.sem[Right(n, i)], Pending(s, Right(n, i)));
  }

  /** Each semaphore is 0 or 1, and 1 only for a philosopher put into `Eating`
      that has not yet consumed its token. */
  lemma TokenMeansUnusedMeal(n: nat, s: Table, i: nat)
    requires n >= 3 && Reachable(n, s) && i < n
    ensures Inv(s) && |s.st| == n
    ensures s.sem[i] <= 1
    ensures s.sem[i] == 1 ==> Real(s.pc[i], s.st[i]) && (s.pc[i].LeaveTake? || s.pc[i].Await?)
  {
    ReachableInv(n, s);
    assert PhilInv(s.pc[i], s.st[i], s.sem[i], Pending(s, i));
  }

  /** dineWin.cpp: a semaphore of maximum count 1 never rejects a release,
      because it is 0 whenever it is about to be posted. */
  lemma ReleaseNeverRejected(n: nat, s: Table, j: nat)
    requires n >= 3 && Reachable(n, s) && j < n
    ensures Inv(s) && |s.st| == n
    ensures Posts(n, s.pc[j], j).Some? ==> s.sem[Posts(n, s.pc[j], j).value] == 0
  {
    ReachableInv(n, s);
    if Posts(n, s.pc[j], j).Some? {
      var i := Posts(n, s.pc[j], j).value;
      assert Pending(s, i);
      assert PhilInv(s.pc[i], s.st[i], s.sem[i], Pending(s, i));
    }
  }

  lemma {:induction false} NoEaterNoReach(st: seq<Phase>, i: nat, right: bool, d: nat)
    requires i < |st| && forall j | 0 <= j < |st| :: st[j] != Eating
    ensures !Reach(st, i, right, d)
    decreases d
  {
    if d > 1 {
      NoEaterNoReach(st, Next(|st|, i, right), right, d - 1);
    }
  }

  /** Every reachable state has an enabled step. */
  lemma NoDeadlock(n: nat, s: Table) returns (i: nat)
    requires n >= 3 && Reachable(n, s)
    ensures Fires(s, i)
  {
    ReachableInv(n, s);
    if s.mutex == 0 {
      i := TotalWitness(s.pc, Insiders());
    } else if exists j :: 0 <= j < n && Fires(s, j) {
      i :| 0 <= i < n && Fires(s, i);
    } else {
      HungryLinkedToEater(n, s);
      forall j | 0 <= j < n ensures s.st[j] == Hungry {
        FreeMeansNobody(s, j);
        assert !Fires(s, j);
        assert PhilInv(s.pc[j], s.st[j], s.sem[j], Pending(s, j));
        if Pending(s, j) {
          var k :| 0 <= k < n && Posts(n, s.pc[k], k) == Some(j);
          FreeMeansNobody(s, k);
        }
      }
      assert Connected(s.st, 0);
      var right, d :| Reach(s.st, 0, right, d);
      NoEaterNoReach(s.st, 0, right, d);
      i := 0;
    }
  }

  // ---------- exactly when the textbook invariants hold ----------

  /** Not yet past the first `state[i] = HUNGRY`: in `Eating` only because of the zero initialisation. */
  predicate Phantom(pc: Pc) {
    pc == Think(true) || pc == SetHungry(true)
  }

  /** "No two neighbours are eating" fails exactly for two neighbouring phantoms. */
  lemma NeighboursEatExactlyWhen(n: nat, s: Table, i: nat)
    requires n >= 3 && Reachable(n, s) && i < n
    ensures Inv(s) && |s.st| == n
    ensures s.st[i] == Eating && s.st[Right(n, i)] == Eating <==> Phantom(s.pc[i]) && Phantom(s.pc[Right(n, i)])
  {
    ReachableInv(n, s);
    var r := Right(n, i);
    assert Left(n, r) == i;
    assert PhilInv(s.pc[i], s.st[i], s.sem[i], Pending(s, i));
    assert PhilInv(s.pc[r], s.st[r], s.sem[r], Pending(s, r));
  }

  /** The step completes the first `take_fork` of a phantom that has to wait and
      was the only eating neighbour of a hungry philosopher.  `last` is what the
      philosopher finds when it gets the mutex. */
  ghost predicate Strands(s: Table, i: nat)
    requires Sized(s) && i < |s.st|
  {
    s.pc[i] == LeaveTake(true) && LeavesStranded(s.last, i)
  }

  lemma StrandsExactlyWhen(s: Table, i: nat)
    requires Inv(s) && Fires(s, i)
    ensures Stranded(After(s, i).last) <= Stranded(s.last) <==> !Strands(s, i)
  {
    assert SectionInv(s.st, s.last, s.pc[i], i);
    if s.pc[i].LeaveTake? {
      if s.pc[i].first {
        FirstTakeStrandsExactlyWhen(s.last, i);
      } else {
        TakeStrands(s.last, i);
      }
    } else if s.pc[i].LeavePut? {
      PutStrands(s.last, i);
    }
  }

  /** Hungry philosophers without an eating neighbour become more exactly at
      steps that `Strands`, which complete a first `take_fork`; every other step
      only reduces them. */
  lemma StrandedOnlyByFirstTake(n: nat, s: Table, i: nat)
    requires n >= 3 && Reachable(n, s) && Fires(s, i)
    ensures s.pc[i] != LeaveTake(true) ==> Stranded(After(s, i).last) <= Stranded(s.last)
    ensures s.pc[i] == LeaveTake(true) ==>
      (Stranded(After(s, i).last) <= Stranded(s.last) <==> !LeavesStranded(s.last, i))
  {
    ReachableInv(n, s);
    StrandsExactlyWhen(s, i);
  }

  /** At every moment of the run with the mutex free, every hungry philosopher has an eating neighbour. */
  ghost predicate NeverStranded(s: Table, who: seq<nat>)
    requires Runs(s, who)
    decreases |who|
  {
    Stranded(s.last) == {} && (who != [] ==> NeverStranded(After(s, who[0]), who[1..]))
  }

  /** No step of the run is one that `Strands`. */
  ghost predicate NoStep(s: Table, who: seq<nat>)
    requires Runs(s, who)
    decreases |who|
  {
    who != [] ==> !Strands(s, who[0]) && NoStep(After(s, who[0]), who[1..])
  }

  lemma {:induction false} NeverStrandedFrom(s: Table, who: seq<nat>)
    requires Inv(s) && Runs(s, who) && Stranded(s.last) == {}
    ensures NeverStranded(s, who) <==> NoStep(s, who)
    decreases |who|
  {
    if who != [] {
      StepKeepsInv(s, who[0]);
      StrandsExactlyWhen(s, who[0]);
      var s' := After(s, who[0]);
      assert Stranded(s'.last) <= {} <==> Stranded(s'.last) == {};
      if Stranded(s'.last) == {} {
        NeverStrandedFrom(s', who[1..]);
      }
    }
  }

  /** "Every hungry philosopher has an eating neighbour" holds throughout a run
      exactly when no phantom that has to wait takes its place next to a hungry
      philosopher it was the only eating neighbour of. */
  lemma {:induction false} HungryHaveEatersExactlyWhen(n: nat, who: seq<nat>)
    requires n >= 3 && Runs(Init(n), who)
    ensures NeverStranded(Init(n), who) <==> NoStep(Init(n), who)
  {
    InitInv(n);
    NeverStrandedFrom(Init(n), who);
  }

  // ---------- the textbook invariants do not hold here ----------

  lemma {:induction false} RunsAppend(s: Table, who: seq<nat>, i: nat)
    requires Runs(s, who) && Fires(End(s, who), i)
    ensures Runs(s, who + [i]) && End(s, who + [i]) == After(End(s, who), i)
    decreases |who|
  {
    var more := who + [i];
    if who == [] {
      assert more[1..] == [];
    } else {
      assert more[1..] == who[1..] + [i];
      RunsAppend(After(s, who[0]), who[1..], i);
    }
  }

  lemma Extend(n: nat, s: Table, i: nat)
    requires Reachable(n, s) && Fires(s, i)
    ensures Reachable(n, After(s, i))
  {
    var who :| Runs(Init(n), who) && End(Init(n), who) == s;
    RunsAppend(Init(n), who, i);
  }

  /** A first `take_fork` next to an eater ends waiting. */
  lemma FirstTakeBlocks(n: nat, s: Table, i: nat) returns (s': Table)
    requires n >= 3 && Reachable(n, s) && s.mutex == 1 && Sized(s) && |s.st| == n && i < n && s.pc[i] == Think(true)
    requires s.st[Left(n, i)] == Eating || s.st[Right(n, i)] == Eating
    ensures Reachable(n, s') && Sized(s') && |s'.st| == n && s'.mutex == 1
    ensures s'.st == s.st[i := Hungry] && s'.pc == s.pc[i := Await]
  {
    var s1 := After(s, i);
    Extend(n, s, i);
    var s2 := After(s1, i);
    Extend(n, s1, i);
    var s3 := After(s2, i);
    Extend(n, s2, i);
    s' := After(s3, i);
    Extend(n, s3, i);
  }

  /** With five philosophers, one can be hungry with both neighbours not eating
      while the mutex is free; and neighbours are both `Eating` initially. */
  lemma TextbookInvariantsFail() returns (s: Table)
    ensures Reachable(5, s) && s.mutex == 1 && 0 in Stranded(s.st)
    ensures Reachable(5, Init(5)) && Init(5).st[0] == Eating && Init(5).st[1] == Eating
  {
    s := Init(5);
    assert Runs(s, []) && End(s, []) == s;
    s := FirstTakeBlocks(5, s, 0);
    s := FirstTakeBlocks(5, s, 1);
    s := FirstTakeBlocks(5, s, 4);
  }
}
