/** What holds of every run of the reference-counted tables, for any number of
    threads, every interleaving and both versions. */
module FooTheorems {
  import opened Basics
  import opened FooSpec
  import opened FooChains
  import opened FooTable
  import opened FooInvariant
  import opened FooSimulation
  import opened FooPreservation
  import opened FooStep

  datatype Move = Move(t: Tid, c: Choice)

  /** The moves can be made one after the other from `s`. */
  predicate Runs(s: Machine, moves: seq<Move>)
    decreases |moves|
  {
    moves == [] || (Fires(s, moves[0].t, moves[0].c) && Runs(After(s, moves[0].t, moves[0].c), moves[1..]))
  }

  function End(s: Machine, moves: seq<Move>): Machine
    requires Runs(s, moves)
    decreases |moves|
  {
    if moves == [] then s else End(After(s, moves[0].t, moves[0].c), moves[1..])
  }

  ghost predicate Reachable(v: Version, n: nat, s: Machine) {
    exists moves :: Runs(Init(v, n), moves) && End(Init(v, n), moves) == s
  }

  lemma {:induction false} RunKeepsInv(s: Machine, a: Spec, moves: seq<Move>) returns (b: Spec)
    requires Inv(s, a) && Runs(s, moves)
    ensures Inv(End(s, moves), b)
    decreases |moves|
  {
    if moves == [] {
      b := a;
    } else {
      var m := moves[0];
      StepKeepsInv(s, a, m.t, m.c);
      b := RunKeepsInv(After(s, m.t, m.c), SpecAfter(a, LabelOf(s, m.t, m.c)), moves[1..]);
    }
  }

  lemma {:induction false} RunKeepsThreads(s: Machine, moves: seq<Move>)
    requires Runs(s, moves)
    ensures End(s, moves).ver == s.ver && |End(s, moves).pc| == |s.pc|
    decreases |moves|
  {
    if moves != [] {
      PerformMoves(s, moves[0].t, Line(s, moves[0].t, moves[0].c));
      RunKeepsThreads(After(s, moves[0].t, moves[0].c), moves[1..]);
    }
  }

  lemma ReachableInv(v: Version, n: nat, s: Machine) returns (a: Spec)
    requires Reachable(v, n, s)
    ensures Inv(s, a) && s.ver == v && |s.pc| == n
  {
    var moves :| Runs(Init(v, n), moves) && End(Init(v, n), moves) == s;
    InitInv(v, n);
    RunKeepsThreads(Init(v, n), moves);
    a := RunKeepsInv(Init(v, n), SpecInit(n), moves);
  }

  // ---------- refinement ----------

  predicate SpecRuns(a: Spec, labels: seq<SpecLabel>)
    decreases |labels|
  {
    labels == [] || (SpecFires(a, labels[0]) && SpecRuns(SpecAfter(a, labels[0]), labels[1..]))
  }

  /** What clients see: calls, returned values and references handed over. */
  function Visible(labels: seq<SpecLabel>): seq<SpecLabel> {
    if labels == [] then []
    else (if labels[0].Stutter? || labels[0].Commit? then [] else [labels[0]]) + Visible(labels[1..])
  }

  function Observe(s: Machine, m: Move): seq<SpecLabel>
    requires m.t < |s.pc|
  {
    match s.pc[m.t]
    case Idle =>
      if m.c.Invoke? then [Call(m.t, m.c.op)]
      else if m.c.HandOver? then [Pass(m.t, m.c.tok, m.c.to)] else []
    case Return(res) => [Ret(m.t, res)]
    case _ => []
  }

  function Observed(s: Machine, moves: seq<Move>): seq<SpecLabel>
    requires Runs(s, moves)
    decreases |moves|
  {
    if moves == [] then []
    else Observe(s, moves[0]) + Observed(After(s, moves[0].t, moves[0].c), moves[1..])
  }

  function Labels(s: Machine, moves: seq<Move>): seq<SpecLabel>
    requires Runs(s, moves)
    decreases |moves|
  {
    if moves == [] then []
    else [LabelOf(s, moves[0].t, moves[0].c)] + Labels(After(s, moves[0].t, moves[0].c), moves[1..])
  }

  lemma LabelVisible(s: Machine, m: Move)
    requires Fires(s, m.t, m.c)
    ensures var l := LabelOf(s, m.t, m.c);
      (if l.Stutter? || l.Commit? then [] else [l]) == Observe(s, m)
  {
  }

  lemma {:induction false} RefinesFrom(s: Machine, a: Spec, moves: seq<Move>)
    requires Inv(s, a) && Runs(s, moves)
    ensures SpecRuns(a, Labels(s, moves))
    ensures Visible(Labels(s, moves)) == Observed(s, moves)
    decreases |moves|
  {
    if moves != [] {
      var m := moves[0];
      var l, s' := LabelOf(s, m.t, m.c), After(s, m.t, m.c);
      StepKeepsInv(s, a, m.t, m.c);
      RefinesFrom(s', SpecAfter(a, l), moves[1..]);
      LabelVisible(s, m);
      assert Labels(s, moves)[0] == l && Labels(s, moves)[1..] == Labels(s', moves[1..]);
    }
  }

  /** Both tables are linearisable: the calls and returned values of every run
      are those of a run of the one atomic specification. */
  lemma {:induction false} BothRefineSpec(v: Version, n: nat, moves: seq<Move>)
    requires Runs(Init(v, n), moves)
    ensures exists labels :: SpecRuns(SpecInit(n), labels) && Visible(labels) == Observed(Init(v, n), moves)
  {
    InitInv(v, n);
    RefinesFrom(Init(v, n), SpecInit(n), moves);
  }

  // ---------- memory safety ----------

  lemma AccessFromFacts(v: Version, heap: map<Ref, Node>, a: Spec, t: Tid, pc: Pc)
    requires t < |a.status| && Known(a) && Local(v, a, t, pc)
    requires HoldsObj(v, pc).Some? ==> HoldsObj(v, pc).value in heap
    requires Private(pc).Some? ==> Private(pc).value in heap
    requires forall r | r in a.order :: r in heap
    requires forall k | k in a.ledger :: a.ledger[k].ref in a.order
    requires pc.FScan? && pc.cur.Some? ==> pc.cur.value in a.order
    requires pc.RWalk? ==> pc.cur.Some? && pc.cur.value in a.order
    ensures ValidAccess(v, heap, pc)
  {
  }

  lemma CursorsInTable(a: Spec, pc: Pc)
    requires Known(a)
    requires pc.FScan? ==> Scanning(a, pc.id, pc.cur)
    requires pc.RWalk? ==> Walking(a, pc.fp, pc.cur)
    ensures pc.FScan? && pc.cur.Some? ==> pc.cur.value in a.order
    ensures pc.RWalk? ==> pc.cur.Some? && pc.cur.value in a.order
  {
    if pc.FScan? {
      BucketMembers(a.order, a.ids, Hash(pc.id));
    } else if pc.RWalk? {
      BucketMembers(a.order, a.ids, Hash(a.ids[pc.fp]));
    }
  }

  lemma LocalCursor(s: Machine, a: Spec, t: Tid)
    requires Known(a) && |s.pc| == |a.status| && LocalInv(s, a) && t < |s.pc|
    ensures Local(s.ver, a, t, s.pc[t])
    ensures s.pc[t].FScan? ==> Scanning(a, s.pc[t].id, s.pc[t].cur)
    ensures s.pc[t].RWalk? ==> Walking(a, s.pc[t].fp, s.pc[t].cur)
  {
    assert Local(s.ver, a, t, s.pc[t]);
  }

  lemma HeldAndPrivateLive(s: Machine, a: Spec, t: Tid)
    requires ObjLockInv(s) && PrivateInv(s, a) && t < |s.pc|
    ensures HoldsObj(s.ver, s.pc[t]).Some? ==> HoldsObj(s.ver, s.pc[t]).value in s.heap
    ensures Private(s.pc[t]).Some? ==> Private(s.pc[t]).value in s.heap
  {
    var held, priv := Held(s), Privates(s);
    assert held[t] == HoldsObj(s.ver, s.pc[t]) && priv[t] == Private(s.pc[t]);
  }

  lemma AccessHolds(s: Machine, a: Spec, t: Tid)
    requires Inv(s, a) && t < |s.pc|
    ensures ValidAccess(s.ver, s.heap, s.pc[t])
  {
    AccessFromParts(s, a, t);
  }

  lemma AccessFromParts(s: Machine, a: Spec, t: Tid)
    requires Known(a) && |s.pc| == |a.status| && t < |s.pc|
    requires LocalInv(s, a) && ObjLockInv(s) && PrivateInv(s, a)
    requires forall k | k in a.ledger :: a.ledger[k].ref in a.order
    ensures ValidAccess(s.ver, s.heap, s.pc[t])
  {
    LocalCursor(s, a, t);
    HeldAndPrivateLive(s, a, t);
    CursorsInTable(a, s.pc[t]);
    AccessFromFacts(s.ver, s.heap, a, t, s.pc[t]);
  }

  /** No thread ever reads, writes, locks or frees an object that has been freed,
      and no walk follows a NULL pointer. */
  lemma NoUseAfterFree(v: Version, n: nat, s: Machine)
    requires Reachable(v, n, s)
    ensures forall t | 0 <= t < |s.pc| :: ValidAccess(s.ver, s.heap, s.pc[t])
  {
    var a := ReachableInv(v, n, s);
    forall t | 0 <= t < |s.pc| ensures ValidAccess(s.ver, s.heap, s.pc[t]) {
      AccessHolds(s, a, t);
    }
  }

  /** A thread about to lock an object wants one of the table. */
  lemma WantedInTable(v: Version, a: Spec, u: Tid, pc: Pc)
    requires u < |a.status| && Known(a) && Local(v, a, u, pc) && WantsObj(v, pc).Some?
    requires forall k | k in a.ledger :: a.ledger[k].ref in a.order
    ensures WantsObj(v, pc).value in a.order
  {
  }

  lemma PrivateUnlisted(s: Machine, a: Spec, t: Tid)
    requires PrivateInv(s, a) && t < |s.pc| && Private(s.pc[t]).Some?
    ensures Private(s.pc[t]).value in s.heap && Private(s.pc[t]).value !in a.order
  {
    var priv := Privates(s);
    assert priv[t] == Private(s.pc[t]);
  }

  lemma FreedUnwanted(s: Machine, a: Spec, t: Tid, u: Tid)
    requires Known(a) && |s.pc| == |a.status| && LocalInv(s, a) && PrivateInv(s, a)
    requires forall k | k in a.ledger :: a.ledger[k].ref in a.order
    requires t < |s.pc| && u < |s.pc| && s.pc[t].RFree?
    ensures WantsObj(s.ver, s.pc[u]) != Some(s.pc[t].fp)
  {
    PrivateUnlisted(s, a, t);
    if WantsObj(s.ver, s.pc[u]).Some? {
      LocalCursor(s, a, u);
      WantedInTable(s.ver, a, u, s.pc[u]);
    }
  }

  /** An object is destroyed and freed with its lock free, and with no thread
      holding the lock or about to take it. */
  lemma {:induction false} DestroyedUnlocked(v: Version, n: nat, s: Machine, t: Tid)
    requires Reachable(v, n, s) && t < |s.pc| && s.pc[t].RFree?
    ensures s.pc[t].fp in s.heap && s.heap[s.pc[t].fp].lock.None?
    ensures forall u | 0 <= u < |s.pc| ::
      WantsObj(s.ver, s.pc[u]) != Some(s.pc[t].fp) && HoldsObj(s.ver, s.pc[u]) != Some(s.pc[t].fp)
  {
    var a := ReachableInv(v, n, s);
    var fp := s.pc[t].fp;
    PrivateUnlisted(s, a, t);
    FreedUnlocked(s, a, t, fp);
    forall u | 0 <= u < |s.pc| ensures WantsObj(s.ver, s.pc[u]) != Some(fp) && HoldsObj(s.ver, s.pc[u]) != Some(fp) {
      FreedUnwanted(s, a, t, u);
      if u != t && HoldsObj(s.ver, s.pc[u]).Some? {
        LockedNotPrivate(s, a, t, u);
      }
    }
  }

  // ---------- the table ----------

  /** The chains of the table: one for each head, each a bucket of the table. */
  ghost predicate ChainsOf(s: Machine, a: Spec, chains: seq<seq<Ref>>)
    requires Known(a)
  {
    && |chains| == |s.heads| == NHASH
    && (forall b | 0 <= b < NHASH :: Chain(s.heap, s.heads[b], chains[b]) && Distinct(chains[b]))
    && ListsBuckets(a, chains)
  }

  ghost predicate ListsBuckets(a: Spec, chains: seq<seq<Ref>>)
    requires Known(a)
  {
    forall b, r | 0 <= b < |chains| :: r in chains[b] <==> r in a.order && Hash(a.ids[r]) == b
  }

  lemma ChainsExist(s: Machine, a: Spec) returns (chains: seq<seq<Ref>>)
    requires Known(a) && |s.heads| == NHASH && ChainInv(s, a) && Distinct(a.order)
    ensures ChainsOf(s, a, chains)
  {
    chains := seq(NHASH, b requires 0 <= b < NHASH => Bucket(a.order, a.ids, b));
    forall b | 0 <= b < NHASH
      ensures Chain(s.heap, s.heads[b], chains[b]) && Distinct(chains[b])
      ensures forall r :: r in chains[b] <==> r in a.order && Hash(a.ids[r]) == b
    {
      BucketMembers(a.order, a.ids, b);
    }
  }

  ghost predicate Chained(chains: seq<seq<Ref>>, r: Ref) {
    exists b | 0 <= b < |chains| :: r in chains[b]
  }

  /** Every allocated object is in a chain or in the hands of exactly one call;
      `priv[t]` is the object that thread `t` has to itself. */
  ghost predicate OneOwner(heap: map<Ref, Node>, chains: seq<seq<Ref>>, priv: seq<Option<Ref>>) {
    && (forall r | r in heap :: Chained(chains, r) || Some(r) in priv)
    && (forall t | 0 <= t < |priv| && priv[t].Some? :: priv[t].value in heap && !Chained(chains, priv[t].value))
    && (forall t, u | 0 <= t < u < |priv| && priv[t].Some? :: priv[t] != priv[u])
  }

  lemma ChainedMeansListed(a: Spec, chains: seq<seq<Ref>>, r: Ref)
    requires Known(a) && ListsBuckets(a, chains) && |chains| == NHASH
    ensures Chained(chains, r) <==> r in a.order
  {
    if r in a.order {
      assert r in chains[Hash(a.ids[r])];
    }
  }

  lemma OwnersAreOne(s: Machine, a: Spec, chains: seq<seq<Ref>>, priv: seq<Option<Ref>>)
    requires Known(a) && ChainsOf(s, a, chains) && Accounted(s.heap, a.order, priv)
    ensures OneOwner(s.heap, chains, priv)
  {
    forall r ensures Chained(chains, r) <==> r in a.order {
      ChainedMeansListed(a, chains, r);
    }
  }

  /** The count of an object in a chain is the number of outstanding references
      to it; mutex3.c may be between decrementing it for the last one and unlinking. */
  ghost predicate CountsReferences(s: Machine, r: Ref) {
    && r in s.heap && Tokens(s.ledger, r) != {}
    && (s.heap[r].count == |Tokens(s.ledger, r)|
        || (s.ver.One? && s.hash.Some? && s.heap[r].count == 0 && |Tokens(s.ledger, r)| == 1))
  }

  /** What a chain says about the objects in it. */
  ghost predicate EntriesSound(s: Machine, chains: seq<seq<Ref>>) {
    forall b, r | 0 <= b < |chains| && r in chains[b] :: CountsReferences(s, r) && Hash(s.heap[r].id) == b
  }

  /** Every referenced object is in the chain of its id. */
  ghost predicate ReferencesFound(s: Machine, chains: seq<seq<Ref>>)
    requires |chains| == NHASH
  {
    forall k | k in s.ledger ::
      s.ledger[k].ref in s.heap && s.ledger[k].ref in chains[Hash(s.heap[s.ledger[k].ref].id)]
  }

  ghost predicate ListedSound(s: Machine, a: Spec) {
    forall r | r in a.order :: r in a.ids && CountsReferences(s, r) && s.heap[r].id == a.ids[r]
  }

  lemma CountsAreReferences(s: Machine, a: Spec)
    requires Inv(s, a)
    ensures ListedSound(s, a)
  {
    forall r | r in a.order ensures CountsReferences(s, r) {
      if ZeroedBy(s) == Some(r) {
        ZeroedSole(s, a, r);
      }
    }
  }

  lemma EntriesAreSound(s: Machine, a: Spec, chains: seq<seq<Ref>>)
    requires Known(a) && ListsBuckets(a, chains) && ListedSound(s, a)
    ensures EntriesSound(s, chains)
  {
    forall b, r | 0 <= b < |chains| && r in chains[b] ensures CountsReferences(s, r) && Hash(s.heap[r].id) == b {
      EntryIsSound(s, a, chains, b, r);
    }
  }

  lemma EntryIsSound(s: Machine, a: Spec, chains: seq<seq<Ref>>, b: nat, r: Ref)
    requires Known(a) && ListsBuckets(a, chains) && ListedSound(s, a) && b < |chains| && r in chains[b]
    ensures CountsReferences(s, r) && Hash(s.heap[r].id) == b
  {
    assert r in a.order && CountsReferences(s, r) && s.heap[r].id == a.ids[r];
  }

  lemma ReferencesAreFound(s: Machine, a: Spec, chains: seq<seq<Ref>>)
    requires Known(a) && ListsBuckets(a, chains) && |chains| == NHASH && ListedSound(s, a) && s.ledger == a.ledger
    requires forall k | k in a.ledger :: a.ledger[k].ref in a.order
    ensures ReferencesFound(s, chains)
  {
    forall k | k in s.ledger
      ensures s.ledger[k].ref in s.heap && s.ledger[k].ref in chains[Hash(s.heap[s.ledger[k].ref].id)]
    {
      var r := s.ledger[k].ref;
      assert r in a.order && CountsReferences(s, r) && s.heap[r].id == a.ids[r];
    }
  }

  /** In every reachable state the 29 chains are finite and without repetition,
      and hold only objects that hash to their index and are referenced, with
      exact counts; every referenced object is in its chain; and every other
      allocated object is in the hands of exactly one call. */
  lemma TableSound(v: Version, n: nat, s: Machine) returns (chains: seq<seq<Ref>>)
    requires Reachable(v, n, s)
    ensures |chains| == |s.heads| == NHASH
    ensures forall b | 0 <= b < NHASH :: Chain(s.heap, s.heads[b], chains[b]) && Distinct(chains[b])
    ensures EntriesSound(s, chains) && ReferencesFound(s, chains)
    ensures OneOwner(s.heap, chains, Privates(s))
  {
    var a := ReachableInv(v, n, s);
    chains := ChainsExist(s, a);
    CountsAreReferences(s, a);
    EntriesAreSound(s, a, chains);
    ReferencesAreFound(s, a, chains);
    OwnersAreOne(s, a, chains, Privates(s));
  }

  lemma ZeroedSole(s: Machine, a: Spec, r: Ref)
    requires Inv(s, a) && ZeroedBy(s) == Some(r)
    ensures s.ver.One? && s.hash.Some? && |Tokens(a.ledger, r)| == 1
  {
    assert Local(s.ver, a, s.hash.value, s.pc[s.hash.value]);
  }

  /** mutex2.c: at most one thread per object has seen a count of 1 and not yet
      released, so the unlock-relock window is never shared. */
  lemma WindowExclusive(v: Version, n: nat, s: Machine, t: Tid, u: Tid)
    requires Reachable(v, n, s) && t < |s.pc| && u < |s.pc| && t != u
    requires Slow(v, s.pc[t]).Some?
    ensures Slow(v, s.pc[t]) != Slow(v, s.pc[u])
  {
    var a := ReachableInv(v, n, s);
    if t < u {
    } else {
      assert u < t;
    }
  }

  // ---------- no deadlock ----------

  /** A thread that holds an object lock waits for nothing; one that holds
      `hashlock` waits at most for an object lock. */
  lemma LockOrder(v: Version, pc: Pc)
    requires Fits(v, pc)
    ensures HoldsObj(v, pc).Some? ==> !WantsHash(v, pc) && WantsObj(v, pc).None?
    ensures HoldsHash(v, pc) ==> !WantsHash(v, pc)
  {
  }

  ghost function Above(ks: set<Token>): nat {
    if ks == {} then 0 else var k :| k in ks; var m := Above(ks - {k}); if k >= m then k + 1 else m
  }

  lemma {:induction false} AboveFresh(ks: set<Token>, k: Token)
    requires k in ks
    ensures k < Above(ks)
  {
    var j :| j in ks && Above(ks) == (var m := Above(ks - {j}); if j >= m then j + 1 else m);
    if k != j {
      AboveFresh(ks - {j}, k);
    }
  }

  lemma CanGo(s: Machine, a: Spec, t: Tid) returns (c: Choice)
    requires Inv(s, a) && t < |s.pc| && !s.pc[t].Idle? && LocksFree(s, s.pc[t])
    ensures Fires(s, t, c)
  {
    AccessHolds(s, a, t);
    var tok := Above(s.ledger.Keys);
    if tok in s.ledger.Keys { AboveFresh(s.ledger.Keys, tok); }
    c := Go(true, 0, tok);
  }

  lemma HolderGoes(s: Machine, a: Spec, r: Ref) returns (u: Tid)
    requires Inv(s, a) && r in s.heap && s.heap[r].lock.Some?
    ensures u < |s.pc| && !s.pc[u].Idle? && LocksFree(s, s.pc[u])
  {
    u := LockHolder(s, r);
    assert Local(s.ver, a, u, s.pc[u]);
    LocalFits(s.ver, a, u, s.pc[u]);
    LockOrder(s.ver, s.pc[u]);
  }

  /** While any call is in progress, some call in progress can take a step. */
  lemma NoDeadlock(v: Version, n: nat, s: Machine, t: Tid) returns (u: Tid, c: Choice)
    requires Reachable(v, n, s) && t < |s.pc| && !s.pc[t].Idle?
    ensures u < |s.pc| && !s.pc[u].Idle? && Fires(s, u, c)
  {
    var a := ReachableInv(v, n, s);
    u := t;
    if WantsHash(s.ver, s.pc[u]) && s.hash.Some? {
      u := s.hash.value;
      assert Local(s.ver, a, u, s.pc[u]);
      LocalFits(s.ver, a, u, s.pc[u]);
      LockOrder(s.ver, s.pc[u]);
    }
    if !LocksFree(s, s.pc[u]) {
      u := HolderGoes(s, a, WantsObj(s.ver, s.pc[u]).value);
    }
    c := CanGo(s, a, u);
  }

  // ---------- walks end ----------

  /** The walk is at some object of the chain, `left` objects before `fp`. */
  ghost predicate Before(c: seq<Ref>, cur: Option<Ref>, fp: Ref, left: nat) {
    exists i, j | 0 <= i < j < |c| :: cur == LinkAfter(c, i) && c[j] == fp && left == j - i
  }

  /** The walk is at some object of the chain with `left` objects ahead, or at NULL with none. */
  ghost predicate BeforeEnd(c: seq<Ref>, cur: Option<Ref>, left: nat) {
    exists i | 0 <= i <= |c| :: cur == LinkAfter(c, i) && left == |c| - i
  }

  /** The number of objects a walk still has ahead of it: up to `fp` for the
      unlink walk, up to NULL for a find. */
  ghost predicate Remaining(a: Spec, pc: Pc, left: nat)
    requires Known(a)
  {
    match pc
    case RWalk(fp, _, cur) => fp in a.ids && Before(Bucket(a.order, a.ids, Hash(a.ids[fp])), cur, fp, left)
    case FScan(id, cur) => BeforeEnd(Bucket(a.order, a.ids, Hash(id)), cur, left)
    case _ => false
  }

  lemma {:induction false} BucketLength(order: seq<Ref>, ids: map<Ref, int>, b: nat)
    requires forall x | x in order :: x in ids
    ensures |Bucket(order, ids, b)| <= |order|
  {
    if order != [] {
      BucketLength(order[1..], ids, b);
    }
  }

  /** Every walk has a number of objects ahead of it, at most the size of the table. */
  lemma WalkBounded(v: Version, n: nat, s: Machine, t: Tid) returns (a: Spec, left: nat)
    requires Reachable(v, n, s) && t < |s.pc| && (s.pc[t].RWalk? || s.pc[t].FScan?)
    ensures Inv(s, a) && Remaining(a, s.pc[t], left) && left <= |a.order|
  {
    a := ReachableInv(v, n, s);
    LocalCursor(s, a, t);
    var b := Hash(if s.pc[t].RWalk? then a.ids[s.pc[t].fp] else s.pc[t].id);
    BucketLength(a.order, a.ids, b);
    if s.pc[t].RWalk? {
      left := UnlinkBounded(a, s.pc[t].fp, s.pc[t].cur, Bucket(a.order, a.ids, b));
    } else {
      left := FindBounded(a, s.pc[t].id, s.pc[t].cur, Bucket(a.order, a.ids, b));
    }
  }

  lemma UnlinkBounded(a: Spec, fp: Ref, cur: Option<Ref>, c: seq<Ref>) returns (left: nat)
    requires Known(a) && Walking(a, fp, cur) && c == Bucket(a.order, a.ids, Hash(a.ids[fp])) && |c| <= |a.order|
    ensures Before(c, cur, fp, left) && left <= |a.order|
  {
    var i, j :| 0 <= i < j < |c| && cur == LinkAfter(c, i) && c[j] == fp;
    left := j - i;
  }

  lemma FindBounded(a: Spec, id: int, cur: Option<Ref>, c: seq<Ref>) returns (left: nat)
    requires Known(a) && Scanning(a, id, cur) && c == Bucket(a.order, a.ids, Hash(id)) && |c| <= |a.order|
    ensures BeforeEnd(c, cur, left) && left <= |a.order|
  {
    var i :| 0 <= i <= |c| && cur == LinkAfter(c, i);
    left := |c| - i;
  }

  /** One iteration of a walk leaves one object less ahead. */
  lemma WalkAdvances(s: Machine, a: Spec, t: Tid, c: Choice, left: nat)
    requires Inv(s, a) && Fires(s, t, c) && Remaining(a, s.pc[t], left)
    ensures SpecFires(a, LabelOf(s, t, c))
    ensures var pc' := After(s, t, c).pc[t];
      (s.pc[t].RWalk? && pc'.RWalk?) || (s.pc[t].FScan? && pc'.FScan?) ==>
        left > 0 && SpecAfter(a, LabelOf(s, t, c)) == a && Remaining(a, pc', left - 1)
  {
    StepKeepsInv(s, a, t, c);
    WalkLine(s, a, t, c, left);
  }

  lemma WalkLine(s: Machine, a: Spec, t: Tid, c: Choice, left: nat)
    requires Aligned(s, a) && ChainInv(s, a) && Fires(s, t, c) && Remaining(a, s.pc[t], left)
    ensures var x := Line(s, t, c);
      (s.pc[t].RWalk? && x.next.RWalk?) || (s.pc[t].FScan? && x.next.FScan?) ==>
        left > 0 && LabelOf(s, t, c).Stutter? && Remaining(a, x.next, left - 1)
  {
    var x := Line(s, t, c);
    if s.pc[t].RWalk? && x.next.RWalk? {
      var fp, cur := s.pc[t].fp, s.pc[t].cur;
      var b := Hash(a.ids[fp]);
      var cs := Bucket(a.order, a.ids, b);
      var i, j :| 0 <= i < j < |cs| && cur == LinkAfter(cs, i) && cs[j] == fp && left == j - i;
      assert Chain(s.heap, s.heads[b], cs);
      assert s.heap[cs[i]].next == LinkAfter(cs, i + 1);
      assert i + 1 < j;
      assert Before(cs, x.next.cur, fp, left - 1);
    } else if s.pc[t].FScan? && x.next.FScan? {
      var id, cur := s.pc[t].id, s.pc[t].cur;
      var cs := Bucket(a.order, a.ids, Hash(id));
      var i :| 0 <= i <= |cs| && cur == LinkAfter(cs, i) && left == |cs| - i;
      assert Chain(s.heap, s.heads[Hash(id)], cs);
      assert s.heap[cs[i]].next == LinkAfter(cs, i + 1);
    }
  }

  /** Steps of other threads leave a walk where it is. */
  lemma WalkUndisturbed(s: Machine, a: Spec, t: Tid, c: Choice, u: Tid, left: nat)
    requires Inv(s, a) && Fires(s, t, c) && u < |s.pc| && u != t && Remaining(a, s.pc[u], left)
    ensures SpecFires(a, LabelOf(s, t, c))
    ensures var a' := SpecAfter(a, LabelOf(s, t, c)); Known(a') && Remaining(a', After(s, t, c).pc[u], left)
  {
    StepKeepsInv(s, a, t, c);
    Prepared(s, a, t, c);
    Simulates(s, a, t, c);
    CountMoved(s, t, c);
    TargetsHold(s, a, t, c);
    assert !HoldsHash(s.ver, s.pc[t]);
  }
}
