/** The threads of `threads/barrier.c`: main starts one worker per chunk, every
    worker sorts its own chunk and meets main at a barrier of k + 1 parties, and
    main merges once it is through the barrier.

    While `heapsort` runs its chunk may hold anything; what is assumed of it is
    that it touches nothing else and returns with its chunk sorted and permuted. */
module BarrierRuns {
  import opened Basics
  import opened BarrierMerge

  datatype Worker = NotStarted | Sorting | AtBarrier | Past

  datatype Main = Starting(i: nat) | Arrived | Merging

  /** `chunks[i]` is the slice of `nums` that worker `i` was given. */
  datatype Sorter = Sorter(t: nat, input: seq<seq<Long>>, chunks: seq<seq<Long>>, workers: seq<Worker>, main: Main, arrived: nat)

  datatype Move =
    | StartWorker
    | Scribble(i: nat, slice: seq<Long>)
    | Return(i: nat)         // heapsort returns, pthread_barrier_wait is entered
    | Leave(i: nat)
    | MainArrives
    | MainLeaves

  function Init(t: nat, input: seq<seq<Long>>): Sorter {
    Sorter(t, input, input, seq(|input|, i => NotStarted), Starting(0), 0)
  }

  predicate BarrierOpen(s: Sorter) {
    s.arrived == |s.workers| + 1
  }

  ghost predicate Fires(s: Sorter, m: Move) {
    && |s.chunks| == |s.input| == |s.workers|
    && match m
       case StartWorker => s.main.Starting? && s.main.i < |s.workers|
       case Scribble(i, slice) => i < |s.workers| && s.workers[i].Sorting? && |slice| == s.t
       case Return(i) =>
         && i < |s.workers| && s.workers[i].Sorting?
         && Sorted(s.chunks[i]) && multiset(s.chunks[i]) == multiset(s.input[i])
       case Leave(i) => i < |s.workers| && s.workers[i].AtBarrier? && BarrierOpen(s)
       case MainArrives => s.main == Starting(|s.workers|)
       case MainLeaves => s.main.Arrived? && BarrierOpen(s)
  }

  ghost function After(s: Sorter, m: Move): Sorter
    requires Fires(s, m)
  {
    match m
    case StartWorker => s.(workers := s.workers[s.main.i := Sorting], main := Starting(s.main.i + 1))
    case Scribble(i, slice) => s.(chunks := s.chunks[i := slice])
    case Return(i) => s.(workers := s.workers[i := AtBarrier], arrived := s.arrived + 1)
    case Leave(i) => s.(workers := s.workers[i := Past])
    case MainArrives => s.(main := Arrived, arrived := s.arrived + 1)
    case MainLeaves => s.(main := Merging)
  }

  ghost function Done(): Worker -> int {
    (w: Worker) => if w.AtBarrier? || w.Past? then 1 else 0
  }

  ghost predicate ChunkInv(s: Sorter, i: nat)
    requires i < |s.chunks| && i < |s.input| && i < |s.workers|
  {
    && |s.chunks[i]| == s.t
    && (Done()(s.workers[i]) == 1 ==> Sorted(s.chunks[i]) && multiset(s.chunks[i]) == multiset(s.input[i]))
    && (s.workers[i].NotStarted? ==> s.chunks[i] == s.input[i])
    && (s.workers[i].NotStarted? <==> s.main.Starting? && i >= s.main.i)
  }

  ghost predicate Inv(s: Sorter) {
    && |s.chunks| == |s.input| == |s.workers|
    && (s.main.Starting? ==> s.main.i <= |s.workers|)
    && (forall i | 0 <= i < |s.workers| :: ChunkInv(s, i))
    && s.arrived == Total(s.workers, Done()) + (if s.main.Starting? then 0 else 1)
    && (s.main.Merging? ==> BarrierOpen(s))
  }

  lemma InitInv(t: nat, input: seq<seq<Long>>)
    requires forall i | 0 <= i < |input| :: |input[i]| == t
    ensures Inv(Init(t, input))
  {
    TotalZero(Init(t, input).workers, Done());
  }

  lemma StepKeepsInv(s: Sorter, m: Move)
    requires Inv(s) && Fires(s, m)
    ensures Inv(After(s, m))
  {
    var s' := After(s, m);
    forall i | 0 <= i < |s.workers| ensures ChunkInv(s', i) {
      assert ChunkInv(s, i);
      if m.StartWorker? { assert ChunkInv(s, s.main.i); }
    }
    match m
    case StartWorker =>
      assert ChunkInv(s, s.main.i);
      TotalUpdate(s.workers, s.main.i, Sorting, Done());
    case Return(i) => TotalUpdate(s.workers, i, AtBarrier, Done()); AtMostAll(s'.workers);
    case Leave(i) => TotalUpdate(s.workers, i, Past, Done());
    case _ =>
  }

  lemma AtMostAll(ws: seq<Worker>)
    ensures Total(ws, Done()) <= |ws|
  {
    TotalBound(ws, Done(), 1);
  }

  ghost predicate Runs(s: Sorter, moves: seq<Move>)
    decreases |moves|
  {
    moves == [] || (Fires(s, moves[0]) && Runs(After(s, moves[0]), moves[1..]))
  }

  ghost function End(s: Sorter, moves: seq<Move>): Sorter
    requires Runs(s, moves)
    decreases |moves|
  {
    if moves == [] then s else End(After(s, moves[0]), moves[1..])
  }

  lemma {:induction false} RunKeepsInv(s: Sorter, moves: seq<Move>)
    requires Inv(s) && Runs(s, moves)
    ensures Inv(End(s, moves)) && End(s, moves).t == s.t && End(s, moves).input == s.input
    decreases |moves|
  {
    if moves != [] {
      StepKeepsInv(s, moves[0]);
      RunKeepsInv(After(s, moves[0]), moves[1..]);
    }
  }

  /** A sum of k zeros and ones that reaches k has only ones. */
  lemma {:induction false} EveryoneDone(ws: seq<Worker>, i: nat)
    requires Total(ws, Done()) == |ws| && i < |ws|
    ensures Done()(ws[i]) == 1
  {
    AtMostAll(ws[1..]);
    if i > 0 {
      EveryoneDone(ws[1..], i - 1);
    }
  }

  // ---------- the array behind the chunks ----------

  ghost function Flatten(cs: seq<seq<Long>>): seq<Long> {
    if cs == [] then [] else Flatten(cs[..|cs| - 1]) + cs[|cs| - 1]
  }

  /** Chunk `i` is the range of `nums` that starts at `i * t`. */
  lemma {:induction false} FlattenAt(cs: seq<seq<Long>>, t: nat, i: nat)
    requires i < |cs| && forall j | 0 <= j < |cs| :: |cs[j]| == t
    ensures |Flatten(cs)| == Base(|cs|, t)
    ensures Base(i, t) <= Base(i + 1, t) <= |Flatten(cs)| && Flatten(cs)[Base(i, t)..Base(i + 1, t)] == cs[i]
    decreases |cs|
  {
    var n := |cs| - 1;
    FlattenLength(cs, t);
    FlattenLength(cs[..n], t);
    BaseInside(i, |cs|, t);
    if i < n {
      FlattenAt(cs[..n], t, i);
      BaseInside(i, n, t);
      assert Flatten(cs)[Base(i, t)..Base(i + 1, t)] == Flatten(cs[..n])[Base(i, t)..Base(i + 1, t)];
    }
  }

  lemma {:induction false} FlattenLength(cs: seq<seq<Long>>, t: nat)
    requires forall j | 0 <= j < |cs| :: |cs[j]| == t
    ensures |Flatten(cs)| == Base(|cs|, t)
    decreases |cs|
  {
    if cs != [] {
      FlattenLength(cs[..|cs| - 1], t);
    }
  }

  lemma {:induction false} FlattenPermutes(cs: seq<seq<Long>>, ds: seq<seq<Long>>)
    requires |cs| == |ds| && forall j | 0 <= j < |cs| :: multiset(cs[j]) == multiset(ds[j])
    ensures multiset(Flatten(cs)) == multiset(Flatten(ds))
    decreases |cs|
  {
    if cs != [] {
      FlattenPermutes(cs[..|cs| - 1], ds[..|ds| - 1]);
    }
  }

  /** In every interleaving: when main merges, no worker is sorting any more, every
      chunk of `nums` is sorted, and `nums` is a permutation of the input. */
  lemma {:induction false} MergeStartsSorted(t: nat, input: seq<seq<Long>>, moves: seq<Move>)
    requires forall i | 0 <= i < |input| :: |input[i]| == t
    requires Runs(Init(t, input), moves) && End(Init(t, input), moves).main.Merging?
    ensures var s := End(Init(t, input), moves);
      && (forall i | 0 <= i < |s.workers| :: s.workers[i].AtBarrier? || s.workers[i].Past?)
      && ChunksSorted(Flatten(s.chunks), |input|, t)
      && multiset(Flatten(s.chunks)) == multiset(Flatten(input))
  {
    var s := End(Init(t, input), moves);
    InitInv(t, input);
    RunKeepsInv(Init(t, input), moves);
    forall i | 0 <= i < |s.workers| ensures Done()(s.workers[i]) == 1 {
      EveryoneDone(s.workers, i);
    }
    forall i | 0 <= i < |s.workers|
      ensures |s.chunks[i]| == t && Sorted(s.chunks[i]) && multiset(s.chunks[i]) == multiset(s.input[i])
    {
      assert ChunkInv(s, i);
    }
    FlattenLength(s.chunks, t);
    FlattenPermutes(s.chunks, s.input);
    forall i: nat | i < |input| ensures ChunkSorted(Flatten(s.chunks), i, t) {
      ChunkIsSorted(s.chunks, t, i);
    }
  }

  lemma ChunkIsSorted(cs: seq<seq<Long>>, t: nat, i: nat)
    requires i < |cs| && (forall j | 0 <= j < |cs| :: |cs[j]| == t) && Sorted(cs[i])
    ensures ChunkSorted(Flatten(cs), i, t)
  {
    FlattenAt(cs, t, i);
    var ns, b := Flatten(cs), Base(i, t);
    forall x, y | b <= x < y < Base(i + 1, t) && y < |ns| ensures ns[x] <= ns[y] {
      assert ns[x] == cs[i][x - b] && ns[y] == cs[i][y - b];
    }
  }

  /** Sorting is never disturbed: nothing is written to a chunk once its worker is at the barrier. */
  lemma FinishedChunksStay(s: Sorter, m: Move, i: nat)
    requires Inv(s) && Fires(s, m) && i < |s.workers| && Done()(s.workers[i]) == 1
    ensures After(s, m).chunks[i] == s.chunks[i] && Done()(After(s, m).workers[i]) == 1
  {
    assert ChunkInv(s, i);
  }

  /** The whole program: whatever the interleaving before the barrier, main ends
      with the sorted permutation of the input if LONG_MAX does not occur in it. */
  method MergeAfterBarrier(nums: array<Long>, snums: array<Long>, k: nat, t: nat,
                           ghost input: seq<seq<Long>>, ghost moves: seq<Move>) returns (end: MergeEnd)
    requires k == |input| && forall i | 0 <= i < |input| :: |input[i]| == t
    requires Runs(Init(t, input), moves) && End(Init(t, input), moves).main.Merging?
    requires nums != snums && snums.Length == nums.Length && nums[..] == Flatten(End(Init(t, input), moves).chunks)
    modifies snums
    ensures Tops(Flatten(input)) == 0 ==>
      end.Full? && Sorted(snums[..]) && multiset(snums[..]) == multiset(Flatten(input))
  {
    MergeStartsSorted(t, input, moves);
    end := Merge(nums, snums, k, t);
  }
}
