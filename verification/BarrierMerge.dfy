/** `merge` of `threads/barrier.c` for any number of equal chunks: a k-way merge
    of sorted ranges of `nums` into `snums`. */
module BarrierMerge {
  import opened Basics

  const LONG_MAX: int := 0x7fff_ffff_ffff_ffff

  type Long = x: int | -LONG_MAX - 1 <= x <= LONG_MAX

  ghost predicate Sorted(s: seq<Long>) {
    forall a, b | 0 <= a < b < |s| :: s[a] <= s[b]
  }

  /** Where chunk `i` of length `t` begins: `i * t`. */
  function Base(i: nat, t: nat): nat {
    if i == 0 then 0 else Base(i - 1, t) + t
  }

  lemma {:induction false} BaseIsProduct(i: nat, t: nat)
    ensures Base(i, t) == i * t
  {
    if i > 0 {
      BaseIsProduct(i - 1, t);
    }
  }

  lemma BaseStep(i: nat, t: nat)
    ensures Base(i + 1, t) == Base(i, t) + t
  {
  }

  lemma {:induction false} BaseMonotone(i: nat, k: nat, t: nat)
    requires i <= k
    ensures Base(i, t) <= Base(k, t)
    decreases k
  {
    if i < k {
      BaseMonotone(i, k - 1, t);
    }
  }

  lemma BaseInside(i: nat, k: nat, t: nat)
    requires i < k
    ensures Base(i, t) <= Base(i + 1, t) <= Base(k, t)
  {
    BaseStep(i, t);
    BaseMonotone(i + 1, k, t);
  }

  /** Each of the `k` chunks of length `t` is sorted. */
  ghost predicate ChunksSorted(ns: seq<Long>, k: nat, t: nat) {
    |ns| == Base(k, t) && forall i: nat | i < k :: ChunkSorted(ns, i, t)
  }

  ghost predicate ChunkSorted(ns: seq<Long>, i: nat, t: nat) {
    forall a, b | Base(i, t) <= a < b < Base(i + 1, t) && b < |ns| :: ns[a] <= ns[b]
  }

  lemma PositionsInside(ns: seq<Long>, idx: seq<int>, k: nat, t: nat)
    requires Positions(idx, k, t) && Base(k, t) <= |ns|
    ensures Within(ns, idx)
  {
    forall i: nat | i < k ensures idx[i] <= |ns| {
      BaseInside(i, k, t);
    }
  }

  /** A position in each chunk. */
  ghost predicate Positions(idx: seq<int>, k: nat, t: nat) {
    |idx| == k && forall i: nat {:trigger idx[i]} | i < k :: Base(i, t) <= idx[i] <= Base(i + 1, t)
  }

  ghost predicate InRange(ns: seq<Long>, idx: seq<int>, i: nat, t: nat) {
    i < |idx| && 0 <= idx[i] < Base(i + 1, t) <= |ns|
  }

  /** How many elements of the first `n` chunks have been taken. */
  ghost function Count(idx: seq<int>, t: nat, n: nat): int
    requires n <= |idx|
  {
    if n == 0 then 0 else Count(idx, t, n - 1) + (idx[n - 1] - Base(n - 1, t))
  }

  ghost function Range(ns: seq<Long>, lo: nat, hi: int): multiset<Long>
    requires hi <= |ns|
    decreases hi
  {
    if hi <= lo then multiset{} else Range(ns, lo, hi - 1) + multiset{ns[hi - 1]}
  }

  lemma Glue(whole: multiset<Long>, a: multiset<Long>, b: multiset<Long>, v: Long)
    requires whole == a + b
    ensures whole + multiset{v} == a + (b + multiset{v})
  {
  }

  lemma Nothing(a: multiset<Long>)
    ensures a + multiset{} == a
  {
  }

  lemma {:induction false} RangeJoin(ns: seq<Long>, lo: nat, mid: nat, hi: nat)
    requires lo <= mid <= hi <= |ns|
    ensures Range(ns, lo, hi) == Range(ns, lo, mid) + Range(ns, mid, hi)
    decreases hi
  {
    var head := Range(ns, lo, mid);
    if mid < hi {
      RangeJoin(ns, lo, mid, hi - 1);
      Glue(Range(ns, lo, hi - 1), head, Range(ns, mid, hi - 1), ns[hi - 1]);
    } else {
      Nothing(head);
    }
  }

  lemma {:induction false} OneMore(s: seq<Long>, v: Long)
    ensures multiset(s + [v]) == multiset(s) + multiset{v}
  {
  }

  lemma {:induction false} RangeAll(ns: seq<Long>, hi: nat)
    requires hi <= |ns|
    ensures Range(ns, 0, hi) == multiset(ns[..hi])
  {
    if hi == 0 {
      assert ns[..hi] == [];
    } else {
      RangeAll(ns, hi - 1);
      OneMore(ns[..hi - 1], ns[hi - 1]);
      assert ns[..hi] == ns[..hi - 1] + [ns[hi - 1]];
    }
  }

  /** Which elements of the first `n` chunks have been taken. */
  ghost function Taken(ns: seq<Long>, idx: seq<int>, t: nat, n: nat): multiset<Long>
    requires n <= |idx| && Within(ns, idx)
  {
    if n == 0 then multiset{} else Taken(ns, idx, t, n - 1) + Range(ns, Base(n - 1, t), idx[n - 1])
  }

  lemma {:induction false} CountAdvance(idx: seq<int>, t: nat, m: nat, n: nat)
    requires m < |idx| && n <= |idx|
    ensures Count(idx[m := idx[m] + 1], t, n) == Count(idx, t, n) + (if m < n then 1 else 0)
  {
    if n > 0 {
      CountAdvance(idx, t, m, n - 1);
    }
  }

  lemma PositionsAdvance(idx: seq<int>, t: nat, m: nat)
    requires m < |idx| && Positions(idx, |idx|, t) && idx[m] < Base(m + 1, t)
    ensures Positions(idx[m := idx[m] + 1], |idx|, t)
  {
  }

  lemma AddInside(a: multiset<Long>, b: multiset<Long>, v: Long)
    ensures (a + multiset{v}) + b == (a + b) + multiset{v}
  {
  }

  ghost predicate Within(ns: seq<Long>, idx: seq<int>) {
    forall i: nat {:trigger idx[i]} | i < |idx| :: idx[i] <= |ns|
  }

  lemma {:induction false} TakenSame(ns: seq<Long>, idx: seq<int>, idx': seq<int>, t: nat, n: nat)
    requires n <= |idx| == |idx'| && Within(ns, idx) && Within(ns, idx')
    requires forall i | 0 <= i < n :: idx'[i] == idx[i]
    ensures Taken(ns, idx', t, n) == Taken(ns, idx, t, n)
  {
    if n > 0 {
      TakenSame(ns, idx, idx', t, n - 1);
    }
  }

  lemma {:induction false} TakenHere(ns: seq<Long>, idx: seq<int>, idx': seq<int>, t: nat, m: nat)
    requires m < |idx| == |idx'| && Base(m, t) <= idx[m] < |ns| && Within(ns, idx) && Within(ns, idx')
    requires idx'[m] == idx[m] + 1 && forall i | 0 <= i < m :: idx'[i] == idx[i]
    ensures Taken(ns, idx', t, m + 1) == Taken(ns, idx, t, m + 1) + multiset{ns[idx[m]]}
  {
    var before, range := Taken(ns, idx, t, m), Range(ns, Base(m, t), idx[m]);
    TakenSame(ns, idx, idx', t, m);
    assert Range(ns, Base(m, t), idx'[m]) == range + multiset{ns[idx[m]]};
    Glue(before + range, before, range, ns[idx[m]]);
  }

  lemma {:induction false} TakenOther(ns: seq<Long>, idx: seq<int>, idx': seq<int>, t: nat, n: nat, v: Long)
    requires n < |idx| == |idx'| && Within(ns, idx) && Within(ns, idx') && idx'[n] == idx[n]
    requires Taken(ns, idx', t, n) == Taken(ns, idx, t, n) + multiset{v}
    ensures Taken(ns, idx', t, n + 1) == Taken(ns, idx, t, n + 1) + multiset{v}
  {
    AddInside(Taken(ns, idx, t, n), Range(ns, Base(n, t), idx[n]), v);
  }

  lemma {:induction false} TakenAdvance(ns: seq<Long>, idx: seq<int>, idx': seq<int>, t: nat, m: nat, n: nat)
    requires m < n <= |idx| == |idx'| && Base(m, t) <= idx[m] < |ns| && Within(ns, idx) && Within(ns, idx')
    requires idx'[m] == idx[m] + 1 && forall i | 0 <= i < n && i != m :: idx'[i] == idx[i]
    ensures Taken(ns, idx', t, n) == Taken(ns, idx, t, n) + multiset{ns[idx[m]]}
    decreases n
  {
    var last := n - 1;
    if last == m {
      TakenHere(ns, idx, idx', t, m);
    } else {
      TakenAdvance(ns, idx, idx', t, m, last);
      TakenOther(ns, idx, idx', t, last, ns[idx[m]]);
    }
    assert last + 1 == n;
  }

  /** Which elements of the first `n` chunks are still to be taken. */
  ghost function Left(ns: seq<Long>, idx: seq<int>, t: nat, n: nat): multiset<Long>
    requires n <= |idx| && Positions(idx, |idx|, t) && Base(n, t) <= |ns|
  {
    if n == 0 then multiset{} else
      assert Base(n, t) == Base(n - 1, t) + t && idx[n - 1] >= Base(n - 1, t);
      Left(ns, idx, t, n - 1) + Range(ns, idx[n - 1], Base(n, t))
  }

  lemma {:induction false} TakenAndLeft(ns: seq<Long>, idx: seq<int>, t: nat, n: nat)
    requires n <= |idx| && Within(ns, idx) && Positions(idx, |idx|, t) && Base(n, t) <= |ns|
    ensures Taken(ns, idx, t, n) + Left(ns, idx, t, n) == Range(ns, 0, Base(n, t))
  {
    if n > 0 {
      BaseStep(n - 1, t);
      TakenAndLeft(ns, idx, t, n - 1);
      assert Base(n - 1, t) <= idx[n - 1] <= Base(n, t);
      RangeJoin(ns, Base(n - 1, t), idx[n - 1], Base(n, t));
      RangeJoin(ns, 0, Base(n - 1, t), Base(n, t));
    }
  }

  /** No chunk has a next element below LONG_MAX. */
  ghost predicate Drained(ns: seq<Long>, idx: seq<int>, k: nat, t: nat) {
    forall j: nat | j < k && InRange(ns, idx, j, t) :: ns[idx[j]] == LONG_MAX
  }

  /** Chunk `m` has the smallest next element, and is the first chunk that has it. */
  ghost predicate Best(ns: seq<Long>, idx: seq<int>, k: nat, t: nat, m: nat) {
    && m < k && InRange(ns, idx, m, t) && ns[idx[m]] < LONG_MAX
    && (forall j: nat | j < k && InRange(ns, idx, j, t) :: ns[idx[m]] <= ns[idx[j]])
    && (forall j: nat | j < m && InRange(ns, idx, j, t) :: ns[idx[m]] < ns[idx[j]])
  }

  ghost predicate NonNegative(idx: seq<int>) {
    forall i | 0 <= i < |idx| :: idx[i] >= 0
  }

  /** The inner loop: the first chunk with the smallest next element, if any next
      element is below LONG_MAX. */
  method Smallest(nums: array<Long>, idx: array<int>, k: nat, t: nat) returns (found: bool, minidx: nat)
    requires idx.Length == k && nums.Length == Base(k, t) && NonNegative(idx[..])
    ensures found ==> Best(nums[..], idx[..], k, t, minidx)
    ensures !found ==> Drained(nums[..], idx[..], k, t)
  {
    var num := LONG_MAX;
    found, minidx := false, 0;
    for i := 0 to k
      invariant found ==> minidx < i && InRange(nums[..], idx[..], minidx, t) && num == nums[idx[minidx]] < LONG_MAX
      invariant !found ==> num == LONG_MAX
      invariant forall j: nat | j < i && InRange(nums[..], idx[..], j, t) :: num <= nums[idx[j]]
      invariant found ==> forall j: nat | j < minidx && InRange(nums[..], idx[..], j, t) :: num < nums[idx[j]]
    {
      BaseInside(i, k, t);
      BaseIsProduct(i + 1, t);
      assert idx[..][i] >= 0;
      if idx[i] < (i + 1) * t && nums[idx[i]] < num {
        num := nums[idx[i]];
        minidx := i;
        found := true;
      }
    }
  }

  // ---------- one round of the outer loop ----------

  /** Everything written so far is sorted and at most what is left, and is what has been taken. */
  ghost predicate Progress(ns: seq<Long>, out: seq<Long>, idx: seq<int>, k: nat, t: nat) {
    && Positions(idx, k, t) && |ns| == Base(k, t)
    && |out| == Count(idx, t, k)
    && Sorted(out)
    && (forall p | 0 <= p < |out| :: out[p] < LONG_MAX)
    && (forall p: nat, i: nat | p < |out| && i < k && InRange(ns, idx, i, t) :: out[p] <= ns[idx[i]])
    && Within(ns, idx)
    && multiset(out) == Taken(ns, idx, t, k)
  }

  lemma {:induction false} StartPositions(idx: seq<int>, t: nat, n: nat, ns: seq<Long>)
    requires n <= |idx| && Within(ns, idx)
    requires forall i: nat {:trigger idx[i]} | i < |idx| :: idx[i] == Base(i, t)
    ensures Count(idx, t, n) == 0 && Taken(ns, idx, t, n) == multiset{}
  {
    if n > 0 {
      StartPositions(idx, t, n - 1, ns);
    }
  }

  /** Writing the smallest next element keeps the progress. */
  lemma Advance(ns: seq<Long>, out: seq<Long>, idx: seq<int>, k: nat, t: nat, m: nat)
    requires Progress(ns, out, idx, k, t) && ChunksSorted(ns, k, t)
    requires m < k && InRange(ns, idx, m, t) && ns[idx[m]] < LONG_MAX
    requires forall j: nat | j < k && InRange(ns, idx, j, t) :: ns[idx[m]] <= ns[idx[j]]
    ensures Progress(ns, out + [ns[idx[m]]], idx[m := idx[m] + 1], k, t)
  {
    var v := ns[idx[m]];
    var out', idx' := out + [v], idx[m := idx[m] + 1];
    PositionsAdvance(idx, t, m);
    PositionsInside(ns, idx', k, t);
    CountAdvance(idx, t, m, k);
    BaseInside(m, k, t);
    TakenAdvance(ns, idx, idx', t, m, k);
    forall p: nat, i: nat | p < |out'| && i < k && InRange(ns, idx', i, t) ensures out'[p] <= ns[idx'[i]] {
      BaseInside(i, k, t);
      NextNotSmaller(ns, idx, k, t, m, i);
    }
  }

  /** What follows in a chunk is not smaller than what is taken. */
  lemma NextNotSmaller(ns: seq<Long>, idx: seq<int>, k: nat, t: nat, m: nat, i: nat)
    requires Positions(idx, k, t) && ChunksSorted(ns, k, t) && m < k && i < k && InRange(ns, idx, m, t)
    requires forall j: nat | j < k && InRange(ns, idx, j, t) :: ns[idx[m]] <= ns[idx[j]]
    requires InRange(ns, idx[m := idx[m] + 1], i, t)
    ensures InRange(ns, idx, i, t)
    ensures ns[idx[m]] <= ns[idx[m := idx[m] + 1][i]] && ns[idx[i]] <= ns[idx[m := idx[m] + 1][i]]
  {
    assert Base(i, t) <= idx[i];
    assert InRange(ns, idx, i, t);
    assert ChunkSorted(ns, i, t);
  }

  ghost predicate AtStarts(idx: seq<int>, t: nat) {
    forall i: nat {:trigger idx[i]} | i < |idx| :: idx[i] == i * t
  }

  /** The first loop: every chunk starts at its base. */
  method Start(k: nat, t: nat) returns (idx: array<int>)
    ensures fresh(idx) && idx.Length == k
    ensures AtStarts(idx[..], t)
  {
    idx := new int[k];
    for i := 0 to k
      invariant forall j: nat {:trigger idx[j]} | j < i :: idx[j] == j * t
    {
      idx[i] := i * t;
    }
  }

  lemma StartProgress(ns: seq<Long>, idx: seq<int>, k: nat, t: nat)
    requires |ns| == Base(k, t) && |idx| == k && AtStarts(idx, t)
    ensures Progress(ns, [], idx, k, t)
  {
    forall i: nat | i < k ensures idx[i] == Base(i, t) {
      BaseIsProduct(i, t);
    }
    assert Positions(idx, k, t);
    PositionsInside(ns, idx, k, t);
    StartPositions(idx, t, k, ns);
  }

  // ---------- the chunk taken from last ----------

  /** Position `a` of chunk `j` has been taken. */
  ghost predicate Passed(ns: seq<Long>, idx: seq<int>, t: nat, j: nat, a: nat) {
    j < |idx| && Base(j, t) <= a < idx[j] <= |ns|
  }

  /** `m` is the chunk that the last element of `out` was taken from.  Among
      equal elements those of lower chunks were taken first. */
  ghost predicate TakenFrom(ns: seq<Long>, out: seq<Long>, idx: seq<int>, t: nat, m: Option<nat>) {
    && (m.None? <==> out == [])
    && (forall j: nat, a: nat | Passed(ns, idx, t, j, a) ::
          m.Some? && ns[a] <= out[|out| - 1] && (j > m.value ==> ns[a] < out[|out| - 1]))
    && (m.Some? ==>
          && m.value < |idx| && Base(m.value, t) < idx[m.value] <= |ns| && ns[idx[m.value] - 1] == out[|out| - 1]
          && forall j: nat | j < m.value && InRange(ns, idx, j, t) :: out[|out| - 1] < ns[idx[j]])
  }

  lemma TakenFromNext(ns: seq<Long>, out: seq<Long>, idx: seq<int>, k: nat, t: nat, last: Option<nat>, m: nat)
    requires TakenFrom(ns, out, idx, t, last) && Progress(ns, out, idx, k, t)
    requires m < k && InRange(ns, idx, m, t)
    requires forall j: nat | j < m && InRange(ns, idx, j, t) :: ns[idx[m]] < ns[idx[j]]
    ensures TakenFrom(ns, out + [ns[idx[m]]], idx[m := idx[m] + 1], t, Some(m))
  {
    var v, idx' := ns[idx[m]], idx[m := idx[m] + 1];
    var out' := out + [v];
    assert out'[|out'| - 1] == v && Base(m, t) <= idx[m];
    forall j: nat, a: nat | Passed(ns, idx', t, j, a) ensures ns[a] <= v && (j > m ==> ns[a] < v) {
      if j != m || a < idx[m] {
        assert Passed(ns, idx, t, j, a);
        assert out[|out| - 1] <= v;
      }
    }
    forall j: nat | j < m && InRange(ns, idx', j, t) ensures v < ns[idx'[j]] {
      assert InRange(ns, idx, j, t);
    }
  }

  // ---------- the whole outer loop ----------

  /** What the outer loop has written: first a merge of elements below LONG_MAX,
      `low` of them, which leaves the chunks at the positions `at`; then, with
      `minidx` stale, whatever follows in `nums` after the last element merged. */
  ghost predicate State(ns: seq<Long>, out: seq<Long>, idx: seq<int>, k: nat, t: nat, m: Option<nat>, low: nat, at: seq<int>) {
    && low <= |out| && Progress(ns, out[..low], at, k, t) && TakenFrom(ns, out[..low], at, t, m)
    && (low < |out| ==> m.Some? && Drained(ns, at, k, t))
    && (m.None? ==> idx == at)
    && (m.Some? ==>
          && at[m.value] + (|out| - low) <= |ns|
          && idx == at[m.value := at[m.value] + (|out| - low)]
          && out[low..] == ns[at[m.value]..at[m.value] + (|out| - low)])
  }

  /** Once drained, the inner loop finds nothing any more. */
  lemma StaysDrained(ns: seq<Long>, out: seq<Long>, idx: seq<int>, k: nat, t: nat, m: Option<nat>, low: nat, at: seq<int>)
    requires State(ns, out, idx, k, t, m, low, at) && ChunksSorted(ns, k, t) && low < |out|
    ensures Drained(ns, idx, k, t)
  {
    forall j: nat | j < k && InRange(ns, idx, j, t) ensures ns[idx[j]] == LONG_MAX {
      assert Base(j, t) <= at[j];
      assert InRange(ns, at, j, t);
      assert ChunkSorted(ns, j, t);
    }
  }

  lemma StateFound(ns: seq<Long>, out: seq<Long>, idx: seq<int>, k: nat, t: nat, last: Option<nat>, low: nat, at: seq<int>, m: nat)
    requires State(ns, out, idx, k, t, last, low, at) && ChunksSorted(ns, k, t)
    requires Best(ns, idx, k, t, m)
    ensures State(ns, out + [ns[idx[m]]], idx[m := idx[m] + 1], k, t, Some(m), |out| + 1, idx[m := idx[m] + 1])
  {
    if low < |out| {
      StaysDrained(ns, out, idx, k, t, last, low, at);
    }
    assert low == |out| && out[..low] == out && idx == at;
    Advance(ns, out, idx, k, t, m);
    TakenFromNext(ns, out, idx, k, t, last, m);
    FreshState(ns, out + [ns[idx[m]]], idx[m := idx[m] + 1], k, t, m);
  }

  lemma FreshState(ns: seq<Long>, out: seq<Long>, idx: seq<int>, k: nat, t: nat, m: nat)
    requires Progress(ns, out, idx, k, t) && TakenFrom(ns, out, idx, t, Some(m))
    ensures State(ns, out, idx, k, t, Some(m), |out|, idx)
  {
    assert out[..|out|] == out && out[|out|..] == [] && idx == idx[m := idx[m]];
  }

  lemma StateStale(ns: seq<Long>, out: seq<Long>, idx: seq<int>, k: nat, t: nat, m: nat, low: nat, at: seq<int>)
    requires State(ns, out, idx, k, t, Some(m), low, at) && Drained(ns, idx, k, t) && m < |idx| && idx[m] < |ns|
    ensures idx[m] >= 0
    ensures State(ns, out + [ns[idx[m]]], idx[m := idx[m] + 1], k, t, Some(m), low, at)
  {
    var out' := out + [ns[idx[m]]];
    assert out'[..low] == out[..low];
    if low == |out| {
      assert idx == at;
    }
    assert out'[low..] == out[low..] + [ns[idx[m]]];
  }

  // ---------- when the merge is right ----------

  /** How often LONG_MAX occurs. */
  ghost function Tops(ns: seq<Long>): nat {
    multiset(ns)[LONG_MAX]
  }

  ghost predicate AllTop(ns: seq<Long>) {
    forall a | 0 <= a < |ns| :: ns[a] == LONG_MAX
  }

  /** `p` is where the elements below LONG_MAX end in chunk `m`, and `m` is the
      last chunk that contains the largest of all of them. */
  ghost predicate LastLow(ns: seq<Long>, k: nat, t: nat, m: nat, p: nat) {
    && m < k && Base(m, t) < p <= Base(m + 1, t) && p <= |ns| && ns[p - 1] < LONG_MAX
    && (p < Base(m + 1, t) && p < |ns| ==> ns[p] == LONG_MAX)
    && forall j: nat, a: nat | InChunk(ns, k, t, j, a) && ns[a] < LONG_MAX ::
         ns[a] <= ns[p - 1] && (j > m ==> ns[a] < ns[p - 1])
  }

  ghost predicate InChunk(ns: seq<Long>, k: nat, t: nat, j: nat, a: nat) {
    j < k && Base(j, t) <= a < Base(j + 1, t) && a < |ns|
  }

  /** LONG_MAX does not occur, or as many of them as occur stand in a row in
      `nums` where the stale index reads on. */
  ghost predicate Recovers(ns: seq<Long>, k: nat, t: nat) {
    || Tops(ns) == 0
    || exists m: nat, p: nat | LastLow(ns, k, t, m, p) ::
         p + Tops(ns) <= |ns| && forall a | p <= a < p + Tops(ns) :: ns[a] == LONG_MAX
  }

  /** More LONG_MAX occur than places are left in `nums` where the stale index reads on. */
  ghost predicate RunsOut(ns: seq<Long>, k: nat, t: nat) {
    Tops(ns) > 0 && exists m: nat, p: nat | LastLow(ns, k, t, m, p) :: p + Tops(ns) > |ns|
  }

  lemma LastLowUnique(ns: seq<Long>, k: nat, t: nat, m: nat, p: nat, m': nat, p': nat)
    requires ChunksSorted(ns, k, t) && LastLow(ns, k, t, m, p) && LastLow(ns, k, t, m', p')
    ensures m == m' && p == p'
  {
    assert InChunk(ns, k, t, m, p - 1) && InChunk(ns, k, t, m', p' - 1);
    assert m == m' && ChunkSorted(ns, m, t);
  }

  lemma {:induction false} RangeValues(ns: seq<Long>, lo: nat, hi: nat, x: Long) returns (a: nat)
    requires hi <= |ns| && x in Range(ns, lo, hi)
    ensures lo <= a < hi && ns[a] == x
    decreases hi
  {
    if ns[hi - 1] == x {
      a := hi - 1;
    } else {
      a := RangeValues(ns, lo, hi - 1, x);
    }
  }

  /** Drained chunks have nothing but LONG_MAX left. */
  lemma {:induction false} LeftIsTop(ns: seq<Long>, idx: seq<int>, k: nat, t: nat, n: nat, x: Long)
    requires n <= k == |idx| && Positions(idx, k, t) && ChunksSorted(ns, k, t) && Drained(ns, idx, k, t)
    requires Base(n, t) <= |ns| && x in Left(ns, idx, t, n)
    ensures x == LONG_MAX
    decreases n
  {
    BaseInside(n - 1, k, t);
    assert Base(n - 1, t) <= idx[n - 1];
    if x in Range(ns, idx[n - 1], Base(n, t)) {
      var a := RangeValues(ns, idx[n - 1], Base(n, t), x);
      assert InRange(ns, idx, n - 1, t) && ChunkSorted(ns, n - 1, t);
    } else {
      LeftIsTop(ns, idx, k, t, n - 1, x);
    }
  }

  /** A multiset of one value is determined by its size. */
  lemma OnlyTops(m: multiset<Long>)
    requires forall x | x in m :: x == LONG_MAX
    ensures m[LONG_MAX] == |m| && m == multiset{}[LONG_MAX := |m|]
  {
    var n := m[LONG_MAX];
    assert m == multiset{}[LONG_MAX := n];
  }

  /** After a drained merge the rest of `nums` is LONG_MAX, as often as it occurs at all. */
  lemma DrainedRest(ns: seq<Long>, out: seq<Long>, at: seq<int>, k: nat, t: nat)
    requires Progress(ns, out, at, k, t) && ChunksSorted(ns, k, t) && Drained(ns, at, k, t)
    ensures |ns| == |out| + Tops(ns)
    ensures multiset(ns) == multiset(out) + multiset{}[LONG_MAX := Tops(ns)]
  {
    var left := Left(ns, at, t, k);
    TakenAndLeft(ns, at, t, k);
    RangeAll(ns, |ns|);
    assert ns[..|ns|] == ns;
    forall x | x in left ensures x == LONG_MAX {
      LeftIsTop(ns, at, k, t, k, x);
    }
    OnlyTops(left);
    assert LONG_MAX !in multiset(out);
    assert |multiset(ns)| == |multiset(out)| + |left|;
  }

  /** Once drained, the chunk taken from last and its position are what a caller can compute. */
  lemma DrainedLastLow(ns: seq<Long>, out: seq<Long>, at: seq<int>, k: nat, t: nat, m: nat)
    requires Progress(ns, out, at, k, t) && ChunksSorted(ns, k, t) && Drained(ns, at, k, t)
    requires TakenFrom(ns, out, at, t, Some(m))
    ensures at[m] >= 0 && LastLow(ns, k, t, m, at[m])
  {
    var p := at[m];
    BaseInside(m, k, t);
    if p < Base(m + 1, t) {
      assert InRange(ns, at, m, t);
    }
    forall j: nat, a: nat | InChunk(ns, k, t, j, a) && ns[a] < LONG_MAX
      ensures ns[a] <= ns[p - 1] && (j > m ==> ns[a] < ns[p - 1])
    {
      BaseInside(j, k, t);
      assert Base(j, t) <= at[j] <= Base(j + 1, t) && ChunkSorted(ns, j, t);
      if a >= at[j] {
        assert InRange(ns, at, j, t);
      }
      assert Passed(ns, at, t, j, a);
    }
  }

  lemma Cancel(a: multiset<Long>, b: multiset<Long>, c: multiset<Long>)
    requires a + b == a + c
    ensures b == c
  {
    forall x: Long ensures b[x] == c[x] {
      assert (a + b)[x] == (a + c)[x];
    }
  }

  /** Appending what the stale index reads completes the merge exactly if it reads LONG_MAX only. */
  lemma TailDecides(ns: seq<Long>, out: seq<Long>, tail: seq<Long>)
    requires multiset(ns) == multiset(out) + multiset{}[LONG_MAX := |tail|]
    requires Sorted(out) && forall p | 0 <= p < |out| :: out[p] < LONG_MAX
    ensures Sorted(out + tail) && multiset(out + tail) == multiset(ns) <==> forall a | 0 <= a < |tail| :: tail[a] == LONG_MAX
  {
    assert multiset(out + tail) == multiset(out) + multiset(tail);
    if forall a | 0 <= a < |tail| :: tail[a] == LONG_MAX {
      OnlyTops(multiset(tail));
    }
    if multiset(out + tail) == multiset(ns) {
      Cancel(multiset(out), multiset(tail), multiset{}[LONG_MAX := |tail|]);
      forall a | 0 <= a < |tail| ensures tail[a] == LONG_MAX {
        assert tail[a] in multiset(tail);
      }
    }
  }

  lemma {:induction false} EndedMerged(ns: seq<Long>, out: seq<Long>, idx: seq<int>, k: nat, t: nat, m: Option<nat>, low: nat, at: seq<int>)
    requires State(ns, out, idx, k, t, m, low, at) && ChunksSorted(ns, k, t) && |out| == |ns|
    ensures Sorted(out) && multiset(out) == multiset(ns) <==> Recovers(ns, k, t)
    ensures !RunsOut(ns, k, t)
  {
    if low == |out| {
      assert out[..low] == out;
      EndedLow(ns, out, at, k, t);
    } else {
      EndedStale(ns, out[..low], out[low..], at, k, t, m.value);
      assert out == out[..low] + out[low..];
    }
  }

  lemma EndedStale(ns: seq<Long>, out: seq<Long>, tail: seq<Long>, at: seq<int>, k: nat, t: nat, m: nat)
    requires Progress(ns, out, at, k, t) && ChunksSorted(ns, k, t) && Drained(ns, at, k, t)
    requires TakenFrom(ns, out, at, t, Some(m)) && |out| + |tail| == |ns| && tail != []
    requires 0 <= at[m] <= at[m] + |tail| <= |ns| && tail == ns[at[m]..at[m] + |tail|]
    ensures Sorted(out + tail) && multiset(out + tail) == multiset(ns) <==> Recovers(ns, k, t)
    ensures !RunsOut(ns, k, t)
  {
    var p := at[m];
    DrainedRest(ns, out, at, k, t);
    DrainedLastLow(ns, out, at, k, t, m);
    TailDecides(ns, out, tail);
    RecoversAt(ns, k, t, m, p);
    RunsOutAt(ns, k, t, m, p);
    SameTail(ns, tail, p);
  }

  lemma RunsOutAt(ns: seq<Long>, k: nat, t: nat, m: nat, p: nat)
    requires ChunksSorted(ns, k, t) && LastLow(ns, k, t, m, p) && Tops(ns) > 0
    ensures RunsOut(ns, k, t) <==> p + Tops(ns) > |ns|
  {
    if RunsOut(ns, k, t) {
      var m': nat, p': nat :| LastLow(ns, k, t, m', p') && p' + Tops(ns) > |ns|;
      LastLowUnique(ns, k, t, m, p, m', p');
    }
  }

  lemma SameTail(ns: seq<Long>, tail: seq<Long>, p: nat)
    requires p + |tail| <= |ns| && tail == ns[p..p + |tail|]
    ensures (forall a | 0 <= a < |tail| :: tail[a] == LONG_MAX) <==> forall a | p <= a < p + |tail| :: ns[a] == LONG_MAX
  {
    assert forall a | p <= a < p + |tail| :: ns[a] == tail[a - p];
  }

  lemma RecoversAt(ns: seq<Long>, k: nat, t: nat, m: nat, p: nat)
    requires ChunksSorted(ns, k, t) && LastLow(ns, k, t, m, p) && Tops(ns) > 0
    ensures Recovers(ns, k, t) <==>
      p + Tops(ns) <= |ns| && forall a | p <= a < p + Tops(ns) :: ns[a] == LONG_MAX
  {
    if Recovers(ns, k, t) {
      var m': nat, p': nat :| LastLow(ns, k, t, m', p') && p' + Tops(ns) <= |ns|
        && forall a | p' <= a < p' + Tops(ns) :: ns[a] == LONG_MAX;
      LastLowUnique(ns, k, t, m, p, m', p');
    }
  }

  /** A merge that took everything met no LONG_MAX. */
  lemma AllLow(ns: seq<Long>, out: seq<Long>, idx: seq<int>, k: nat, t: nat)
    requires Progress(ns, out, idx, k, t) && |out| == |ns|
    ensures Tops(ns) == 0 && multiset(out) == multiset(ns)
  {
    TakenAndLeft(ns, idx, t, k);
    RangeAll(ns, |ns|);
    assert ns[..|ns|] == ns;
    assert |multiset(out)| == |multiset(ns)|;
    assert Left(ns, idx, t, k) == multiset{};
    assert LONG_MAX !in multiset(out);
  }

  lemma {:induction false} EndedLow(ns: seq<Long>, out: seq<Long>, idx: seq<int>, k: nat, t: nat)
    requires Progress(ns, out, idx, k, t) && |out| == |ns|
    ensures Sorted(out) && multiset(out) == multiset(ns) && Recovers(ns, k, t) && !RunsOut(ns, k, t)
  {
    AllLow(ns, out, idx, k, t);
  }

  /** With nothing below LONG_MAX the index is never assigned. */
  lemma EndedNoIndex(ns: seq<Long>, idx: seq<int>, k: nat, t: nat)
    requires State(ns, [], idx, k, t, None, 0, idx) && ChunksSorted(ns, k, t) && Drained(ns, idx, k, t) && ns != []
    ensures !Recovers(ns, k, t) && AllTop(ns) && !RunsOut(ns, k, t)
  {
    var none: seq<Long> := [];
    assert none[..0] == none;
    DrainedRest(ns, none, idx, k, t);
    forall a | 0 <= a < |ns| ensures ns[a] == LONG_MAX {
      assert ns[a] in multiset(ns);
    }
  }

  lemma EndedOverrun(ns: seq<Long>, out: seq<Long>, idx: seq<int>, k: nat, t: nat, m: nat, low: nat, at: seq<int>)
    requires State(ns, out, idx, k, t, Some(m), low, at) && ChunksSorted(ns, k, t) && Drained(ns, idx, k, t)
    requires |out| < |ns| && m < |idx| && idx[m] >= |ns|
    ensures !Recovers(ns, k, t) && RunsOut(ns, k, t)
  {
    if low == |out| {
      assert idx == at;
    }
    DrainedRest(ns, out[..low], at, k, t);
    DrainedLastLow(ns, out[..low], at, k, t, m);
    RecoversAt(ns, k, t, m, at[m]);
    RunsOutAt(ns, k, t, m, at[m]);
  }

  // ---------- the method ----------

  /** How a merge ends: by reading `minidx` before it was ever assigned, by
      reading beyond the end of `nums`, or with `snums` full. */
  datatype MergeEnd = Unassigned | Overrun | Full

  /** The two assignments that end a round. */
  method Take(nums: array<Long>, snums: array<Long>, idx: array<int>, sidx: nat, c: nat)
    requires nums != snums && c < idx.Length && 0 <= idx[c] < nums.Length && sidx < snums.Length
    modifies snums, idx
    ensures nums[..] == old(nums[..])
    ensures snums[..sidx + 1] == old(snums[..sidx]) + [nums[..][old(idx[..])[c]]]
    ensures idx[..] == old(idx[..])[c := old(idx[..])[c] + 1]
  {
    snums[sidx] := nums[idx[c]];
    idx[c] := idx[c] + 1;
    assert snums[..sidx] == old(snums[..sidx]);
  }

  /** The chunk that a round takes from: the one just found, or else the stale one. */
  function Chosen(found: bool, m: nat, minidx: Option<nat>): Option<nat> {
    if found then Some(m) else minidx
  }

  /** A round that can take from chunk `c` keeps the state. */
  lemma RoundTakes(ns: seq<Long>, out: seq<Long>, idx: seq<int>, k: nat, t: nat, minidx: Option<nat>, low: nat, at: seq<int>,
                   found: bool, m: nat, c: nat) returns (low': nat, at': seq<int>)
    requires State(ns, out, idx, k, t, minidx, low, at) && ChunksSorted(ns, k, t)
    requires if found then Best(ns, idx, k, t, m) else Drained(ns, idx, k, t)
    requires Chosen(found, m, minidx) == Some(c) && c < |idx| && 0 <= idx[c] < |ns|
    ensures State(ns, out + [ns[idx[c]]], idx[c := idx[c] + 1], k, t, Some(c), low', at')
  {
    if found {
      StateFound(ns, out, idx, k, t, minidx, low, at, c);
      low', at' := |out| + 1, idx[c := idx[c] + 1];
    } else {
      StateStale(ns, out, idx, k, t, c, low, at);
      low', at' := low, at;
    }
  }

  /** An index is assigned only when something below LONG_MAX occurs. */
  lemma AssignedMeansLow(ns: seq<Long>, out: seq<Long>, idx: seq<int>, k: nat, t: nat, m: nat, low: nat, at: seq<int>)
    requires State(ns, out, idx, k, t, Some(m), low, at)
    ensures !AllTop(ns)
  {
    assert ns[at[m] - 1] == out[..low][low - 1];
  }

  /** Why a round cannot take anything. */
  lemma RoundFails(ns: seq<Long>, out: seq<Long>, idx: seq<int>, k: nat, t: nat, minidx: Option<nat>, low: nat, at: seq<int>,
                   found: bool, m: nat)
    requires State(ns, out, idx, k, t, minidx, low, at) && ChunksSorted(ns, k, t) && |out| < |ns|
    requires if found then Best(ns, idx, k, t, m) else Drained(ns, idx, k, t)
    ensures Chosen(found, m, minidx).None? <==> AllTop(ns)
    ensures Chosen(found, m, minidx).None? ==> !Recovers(ns, k, t) && !RunsOut(ns, k, t)
    ensures !found && minidx.Some? ==>
      minidx.value < |idx| && (idx[minidx.value] >= |ns| ==> !Recovers(ns, k, t) && RunsOut(ns, k, t))
  {
    if !found {
      if minidx.None? {
        assert out == [] && idx == at && low == 0;
        EndedNoIndex(ns, idx, k, t);
      } else {
        AssignedMeansLow(ns, out, idx, k, t, minidx.value, low, at);
        if idx[minidx.value] >= |ns| {
          EndedOverrun(ns, out, idx, k, t, minidx.value, low, at);
        }
      }
    }
  }

  lemma StateIndices(ns: seq<Long>, out: seq<Long>, idx: seq<int>, k: nat, t: nat, m: Option<nat>, low: nat, at: seq<int>)
    requires State(ns, out, idx, k, t, m, low, at)
    ensures |idx| == k && |ns| == Base(k, t) && NonNegative(idx) && (m.Some? ==> m.value < k)
  {
  }

  /** The choice of a round: it can be made unless `minidx` is still unassigned,
      and taken unless the stale position is beyond `nums`. */
  method Choose(nums: array<Long>, idx: array<int>, k: nat, t: nat, minidx: Option<nat>)
    returns (end: MergeEnd, c: nat, ghost found: bool, ghost m: nat)
    requires idx.Length == k && nums.Length == Base(k, t) && NonNegative(idx[..]) && (minidx.Some? ==> minidx.value < k)
    ensures if found then Best(nums[..], idx[..], k, t, m) else Drained(nums[..], idx[..], k, t)
    ensures end.Unassigned? <==> Chosen(found, m, minidx).None?
    ensures !end.Unassigned? ==> Chosen(found, m, minidx) == Some(c) && c < k && 0 <= idx[..][c]
    ensures end.Overrun? ==> !found && idx[..][c] >= nums.Length
    ensures end.Full? ==> idx[..][c] < nums.Length
  {
    var any, least := Smallest(nums, idx, k, t);
    found, m, c := any, least, 0;
    var choice := Chosen(any, least, minidx);
    if choice.None? {
      end := Unassigned;
    } else {
      c := choice.value;
      assert idx[..][c] == idx[c];
      end := if idx[c] >= nums.Length then Overrun else Full;
    }
  }

  /** The body of the outer loop: it takes from the chosen chunk, if it can. */
  method ChooseAndTake(nums: array<Long>, snums: array<Long>, idx: array<int>, k: nat, t: nat, sidx: nat, minidx: Option<nat>,
                       ghost ns: seq<Long>, ghost out: seq<Long>, ghost pos: seq<int>)
    returns (end: MergeEnd, c: nat, ghost found: bool, ghost m: nat)
    requires nums != snums && sidx < snums.Length && nums[..] == ns && snums[..sidx] == out && idx[..] == pos
    requires idx.Length == k && nums.Length == Base(k, t) && NonNegative(pos) && (minidx.Some? ==> minidx.value < k)
    modifies snums, idx
    ensures nums[..] == ns
    ensures if found then Best(ns, pos, k, t, m) else Drained(ns, pos, k, t)
    ensures end.Unassigned? <==> Chosen(found, m, minidx).None?
    ensures !end.Unassigned? ==> Chosen(found, m, minidx) == Some(c) && c < k && 0 <= pos[c]
    ensures end.Overrun? ==> !found && pos[c] >= |ns|
    ensures end.Full? ==> pos[c] < |ns| && snums[..sidx + 1] == out + [ns[pos[c]]] && idx[..] == pos[c := pos[c] + 1]
  {
    end, c, found, m := Choose(nums, idx, k, t, minidx);
    if end.Full? {
      Take(nums, snums, idx, sidx, c);
    }
  }

  /** One round of the outer loop: the state goes on, or the merge cannot be right. */
  method Round(nums: array<Long>, snums: array<Long>, idx: array<int>, k: nat, t: nat, sidx: nat, minidx: Option<nat>,
               ghost ns: seq<Long>, ghost out: seq<Long>, ghost pos: seq<int>, ghost low: nat, ghost at: seq<int>)
    returns (end: MergeEnd, c: nat, ghost low': nat, ghost at': seq<int>)
    requires nums != snums && sidx < snums.Length && nums[..] == ns && snums[..sidx] == out && idx[..] == pos
    requires ChunksSorted(ns, k, t) && |out| < |ns| && State(ns, out, pos, k, t, minidx, low, at)
    modifies snums, idx
    ensures nums[..] == ns
    ensures end.Full? ==> c < |pos| && 0 <= pos[c] < |ns|
    ensures end.Full? ==> snums[..sidx + 1] == out + [ns[pos[c]]] && idx[..] == pos[c := pos[c] + 1]
    ensures end.Full? ==> State(ns, out + [ns[pos[c]]], pos[c := pos[c] + 1], k, t, Some(c), low', at')
    ensures !end.Full? ==> !Recovers(ns, k, t) && (end.Overrun? <==> RunsOut(ns, k, t))
    ensures end.Unassigned? <==> AllTop(ns)
  {
    StateIndices(ns, out, pos, k, t, minidx, low, at);
    ghost var found, m;
    end, c, found, m := ChooseAndTake(nums, snums, idx, k, t, sidx, minidx, ns, out, pos);
    RoundFails(ns, out, pos, k, t, minidx, low, at, found, m);
    low', at' := low, at;
    if end.Full? {
      low', at' := RoundTakes(ns, out, pos, k, t, minidx, low, at, found, m, c);
    }
  }

  lemma Untouched(ns: seq<Long>, idx: seq<int>, k: nat, t: nat)
    requires |ns| == Base(k, t) && |idx| == k && AtStarts(idx, t)
    ensures State(ns, [], idx, k, t, None, 0, idx)
  {
    StartProgress(ns, idx, k, t);
    var none: seq<Long> := [];
    assert none[..0] == none;
    forall j: nat, a: nat | Passed(ns, idx, t, j, a) ensures false {
      BaseIsProduct(j, t);
    }
  }

  /** The state in which the outer loop starts. */
  method StartState(nums: array<Long>, k: nat, t: nat) returns (idx: array<int>)
    requires nums.Length == Base(k, t)
    ensures fresh(idx) && idx.Length == k && State(nums[..], [], idx[..], k, t, None, 0, idx[..])
  {
    idx := Start(k, t);
    Untouched(nums[..], idx[..], k, t);
  }

  /** The merge fills `snums` with the sorted permutation of `nums` exactly when
      `Recovers` holds, in particular when LONG_MAX does not occur; it reads an
      unassigned index exactly when nothing else occurs, and beyond `nums` exactly
      when `RunsOut` holds. */
  method Merge(nums: array<Long>, snums: array<Long>, k: nat, t: nat) returns (end: MergeEnd)
    requires nums != snums && snums.Length == nums.Length && ChunksSorted(nums[..], k, t)
    modifies snums
    ensures end.Full? && Sorted(snums[..]) && multiset(snums[..]) == multiset(nums[..]) <==> Recovers(nums[..], k, t)
    ensures end.Unassigned? <==> nums.Length > 0 && AllTop(nums[..])
    ensures end.Overrun? <==> RunsOut(nums[..], k, t)
  {
    var idx := StartState(nums, k, t);
    var minidx: Option<nat> := None;
    ghost var ns, out, pos: seq<int>, low: nat, at := nums[..], snums[..0], idx[..], 0, idx[..];
    for sidx := 0 to nums.Length
      invariant nums[..] == ns && snums[..sidx] == out && idx[..] == pos
      invariant State(ns, out, pos, k, t, minidx, low, at)
    {
      var c;
      end, c, low, at := Round(nums, snums, idx, k, t, sidx, minidx, ns, out, pos, low, at);
      if !end.Full? {
        return;
      }
      minidx, out, pos := Some(c), out + [ns[pos[c]]], pos[c := pos[c] + 1];
    }
    assert snums[..nums.Length] == snums[..];
    EndedMerged(ns, out, pos, k, t, minidx, low, at);
    end := Full;
  }

  /** When LONG_MAX does not occur, `Merge` is right. */
  lemma LowRecovers(ns: seq<Long>, k: nat, t: nat)
    requires forall a | 0 <= a < |ns| :: ns[a] < LONG_MAX
    ensures Recovers(ns, k, t)
  {
    assert LONG_MAX !in ns;
  }

  /** A LONG_MAX can spoil the merge: with the chunks {1, LONG_MAX} and {5, 6} the
      stale index reads beyond `nums`, although all are sorted. */
  lemma TopsSpoil() returns (ns: seq<Long>)
    ensures ChunksSorted(ns, 2, 2) && !Recovers(ns, 2, 2) && RunsOut(ns, 2, 2)
  {
    ns := [1, LONG_MAX, 5, 6];
    assert Base(1, 2) == 2 && Base(2, 2) == 4;
    assert ChunkSorted(ns, 0, 2) && ChunkSorted(ns, 1, 2);
    assert LastLow(ns, 2, 2, 1, 4);
    assert Tops(ns) == 1;
    RecoversAt(ns, 2, 2, 1, 4);
  }
}
