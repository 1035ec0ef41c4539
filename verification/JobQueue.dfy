/** The doubly linked job queue of `threads/rwlock.c`.  Each operation runs under
    the write lock (the search under the read lock), so it is one method here. */
module JobQueue {

  class Job {
    var next: Job?
    var prev: Job?
    const id: int

    constructor (id: int)
      ensures this.id == id
    {
      this.id := id;
    }
  }

  ghost predicate Distinct(s: seq<Job>) {
    forall i, j | 0 <= i < j < |s| :: s[i] != s[j]
  }

  /** The element at position `i`, or null beyond either end. */
  ghost function At(s: seq<Job>, i: int): Job? {
    if 0 <= i < |s| then s[i] else null
  }

  ghost function Without(s: seq<Job>, k: nat): (r: seq<Job>)
    requires k < |s|
    ensures |r| == |s| - 1
    ensures forall i | 0 <= i < |r| :: r[i] == s[if i < k then i else i + 1]
  {
    s[..k] + s[k + 1..]
  }

  ghost function Reverse(s: seq<Job>): (r: seq<Job>) {
    if s == [] then [] else Reverse(s[1..]) + [s[0]]
  }

  class Queue {
    var head: Job?
    var tail: Job?
    ghost var jobs: seq<Job>

    /** The links are those of the sequence `jobs`, in both directions. */
    ghost predicate Valid()
      reads this, jobs
    {
      && Distinct(jobs)
      && head == At(jobs, 0)
      && tail == At(jobs, |jobs| - 1)
      && (forall i {:trigger jobs[i].next} | 0 <= i < |jobs| :: jobs[i].next == At(jobs, i + 1))
      && (forall i {:trigger jobs[i].prev} | 0 <= i < |jobs| :: jobs[i].prev == At(jobs, i - 1))
    }

    constructor ()
      ensures Valid() && jobs == []
    {
      head, tail := null, null;
      jobs := [];
    }

    /** `queue_init`: empties the queue, and passes on the error of the lock's own initialisation. */
    method Init(lockError: int) returns (err: int)
      modifies this
      ensures Valid() && jobs == [] && err == lockError
    {
      head := null;
      tail := null;
      err := lockError;
      jobs := [];
    }

    /** `job_insert`: at the head. */
    method Insert(jp: Job)
      requires Valid() && jp !in jobs
      modifies this, jobs, jp
      ensures Valid() && jobs == [jp] + old(jobs)
    {
      jp.next := head;
      jp.prev := null;
      if head != null {
        assert head == jobs[0];
        head.prev := jp;
      } else {
        tail := jp;
      }
      head := jp;
      jobs := [jp] + jobs;
    }

    /** `job_append`: on the tail. */
    method Append(jp: Job)
      requires Valid() && jp !in jobs
      modifies this, jobs, jp
      ensures Valid() && jobs == old(jobs) + [jp]
    {
      jp.next := null;
      jp.prev := tail;
      if tail != null {
        assert tail == jobs[|jobs| - 1];
        tail.next := jp;
      } else {
        head := jp;
      }
      tail := jp;
      jobs := jobs + [jp];
    }

    /** `job_remove`: takes out the given job, wherever it is. */
    method Remove(jp: Job)
      requires Valid() && jp in jobs
      modifies this, jobs
      ensures exists k | 0 <= k < |old(jobs)| :: old(jobs)[k] == jp && jobs == Without(old(jobs), k)
      ensures Valid()
    {
      ghost var k: nat :| k < |jobs| && jobs[k] == jp;
      if jp == head {
        RemoveHead(jp);
      } else if jp == tail {
        RemoveTail(jp);
      } else {
        RemoveInner(jp, k);
      }
    }

    /** The branch for the first job. */
    method RemoveHead(jp: Job)
      requires Valid() && head == jp
      modifies this, jobs
      ensures |old(jobs)| > 0 && old(jobs)[0] == jp && jobs == Without(old(jobs), 0) && Valid()
    {
      head := jp.next;
      if tail == jp {
        tail := null;
      } else {
        assert jp.next == jobs[1];
        jp.next.prev := jp.prev;
      }
      ghost var was := jobs;
      jobs := Without(jobs, 0);
      forall i | 0 <= i < |jobs| ensures jobs[i].next == At(jobs, i + 1) && jobs[i].prev == At(jobs, i - 1) {
        assert jobs[i] == was[i + 1];
      }
    }

    /** The branch for the last of several jobs. */
    method RemoveTail(jp: Job)
      requires Valid() && tail == jp && head != jp
      modifies this, jobs
      ensures |old(jobs)| > 1 && old(jobs)[|old(jobs)| - 1] == jp
      ensures jobs == Without(old(jobs), |old(jobs)| - 1) && Valid()
    {
      tail := jp.prev;
      assert jp.prev == jobs[|jobs| - 2];
      jp.prev.next := jp.next;
      jobs := jobs[..|jobs| - 1];
    }

    /** The branch for a job between two others. */
    method RemoveInner(jp: Job, ghost k: nat)
      requires Valid() && 0 < k < |jobs| - 1 && jobs[k] == jp
      modifies this, jobs
      ensures jobs == Without(old(jobs), k) && Valid()
    {
      var before, after := jp.prev, jp.next;
      assert before == jobs[k - 1] && after == jobs[k + 1];
      before.next := after;
      after.prev := before;
      ghost var was := jobs;
      jobs := Without(jobs, k);
      forall i | 0 <= i < |jobs| ensures jobs[i].next == At(jobs, i + 1) && jobs[i].prev == At(jobs, i - 1) {
        var o := if i < k then i else i + 1;
        assert jobs[i] == was[o];
      }
    }

    /** `job_find`: the first job for the thread, or null if there is none or the
        read lock could not be taken. */
    method Find(id: int, locked: bool) returns (jp: Job?)
      requires Valid()
      ensures !locked ==> jp == null
      ensures locked && jp == null ==> forall i | 0 <= i < |jobs| :: jobs[i].id != id
      ensures jp != null ==> exists k | 0 <= k < |jobs| ::
        jobs[k] == jp && jp.id == id && forall i | 0 <= i < k :: jobs[i].id != id
    {
      if !locked {
        return null;
      }
      jp := head;
      ghost var k := 0;
      while jp != null
        invariant 0 <= k <= |jobs| && jp == At(jobs, k)
        invariant forall i | 0 <= i < k :: jobs[i].id != id
        decreases |jobs| - k
      {
        if jp.id == id {
          break;
        }
        jp := jp.next;
        k := k + 1;
      }
    }

    // ---------- the walks ----------

    /** The jobs met by following `next` (or `prev`) from `p`, at most `n` of them. */
    ghost function Walk(p: Job?, forward: bool, n: nat): seq<Job>
      reads *
      decreases n
    {
      if p == null || n == 0 then [] else [p] + Walk(if forward then p.next else p.prev, forward, n - 1)
    }

    lemma {:induction false} WalkForward(i: nat, n: nat)
      requires Valid() && i <= |jobs| && n >= |jobs| - i
      ensures Walk(At(jobs, i), true, n) == jobs[i..]
      decreases n
    {
      if i < |jobs| {
        WalkForward(i + 1, n - 1);
      }
    }

    lemma {:induction false} WalkBackward(i: nat, n: nat)
      requires Valid() && i <= |jobs| && n >= i
      ensures Walk(At(jobs, i - 1), false, n) == Reverse(jobs[..i])
      decreases n
    {
      if i > 0 {
        var p := jobs[i - 1];
        assert p.prev == At(jobs, i - 2);
        WalkBackward(i - 1, n - 1);
        assert Walk(p, false, n) == [p] + Walk(p.prev, false, n - 1);
        assert jobs[..i] == jobs[..i - 1] + [jobs[i - 1]];
        ReverseAppend(jobs[..i - 1], jobs[i - 1]);
      }
    }

    /** However far one walks, the forward walk from the head is the sequence and
        the backward walk from the tail is its exact reverse; both end at null. */
    lemma WalksAreReverses(n: nat)
      requires Valid() && n >= |jobs|
      ensures Walk(head, true, n) == jobs
      ensures Walk(tail, false, n) == Reverse(Walk(head, true, n))
    {
      WalkForward(0, n);
      WalkBackward(|jobs|, n);
      assert jobs[0..] == jobs && jobs[..|jobs|] == jobs;
    }
  }

  lemma {:induction false} ReverseAppend(s: seq<Job>, x: Job)
    ensures Reverse(s + [x]) == [x] + Reverse(s)
  {
    if s != [] {
      assert (s + [x])[1..] == s[1..] + [x];
      ReverseAppend(s[1..], x);
    }
  }
}
