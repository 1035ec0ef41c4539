/** Which counts, links and heads the next action of a thread reads and writes,
    and that no two threads are ever about to make conflicting accesses.  Actions
    that make several accesses may therefore be taken as one step. */
module FooRaces {
  import opened Basics
  import opened FooSpec
  import opened FooChains
  import opened FooTable
  import opened FooInvariant
  import opened FooSimulation
  import opened FooStep
  import opened FooTheorems

  /** A shared memory cell: `f_count` or `f_next` of an object, or a list head. */
  datatype Place = CountOf(r: Ref) | NextOf(r: Ref) | HeadOf(b: nat)

  function HeadFor(s: Machine, fp: Ref): set<Place> {
    if fp in s.heap then {HeadOf(Hash(s.heap[fp].id))} else {}
  }

  function Writes(s: Machine, pc: Pc): set<Place> {
    match pc
    case ALink(_, fp) => {NextOf(fp)}
    case APublish(id, _) => {HeadOf(Hash(id))}
    case HInc(fp, _) => {CountOf(fp)}
    case FInc(_, fp) => {CountOf(fp)}
    case RTest(fp, _) => if s.ver.One? then {CountOf(fp)} else {}
    case RDec(fp, _) => {CountOf(fp)}
    case RDecSlow(fp, _) => {CountOf(fp)}
    case RHead(fp, _) => HeadFor(s, fp)
    case RWalk(_, _, cur) => if cur.Some? then {NextOf(cur.value)} else {}
    case RFree(fp) => {CountOf(fp), NextOf(fp)}
    case _ => {}
  }

  function Reads(s: Machine, pc: Pc): set<Place> {
    match pc
    case ALink(id, _) => {HeadOf(Hash(id))}
    case HInc(fp, _) => {CountOf(fp)}
    case FHead(id) => {HeadOf(Hash(id))}
    case FScan(_, cur) => if cur.Some? then {NextOf(cur.value)} else {}
    case FInc(_, fp) => {CountOf(fp)}
    case RTest(fp, _) => {CountOf(fp)}
    case RDec(fp, _) => {CountOf(fp)}
    case RRetest(fp, _) => {CountOf(fp)}
    case RDecSlow(fp, _) => {CountOf(fp)}
    case RHead(fp, _) => HeadFor(s, fp) + {NextOf(fp)}
    case RWalk(fp, _, cur) => {NextOf(fp)} + (if cur.Some? then {NextOf(cur.value)} else {})
    case _ => {}
  }

  // ---------- these are all the accesses ----------

  /** An action changes no other cell of an allocated object, and no other head. */
  lemma WritesAreAll(s: Machine, t: Tid, c: Choice)
    requires Fires(s, t, c)
    ensures var s', w := After(s, t, c), Writes(s, s.pc[t]);
      && (forall r | r in s.heap && CountOf(r) !in w :: r in s'.heap && s'.heap[r].count == s.heap[r].count)
      && (forall r | r in s.heap && NextOf(r) !in w :: r in s'.heap && s'.heap[r].next == s.heap[r].next)
      && (forall b: nat | b < NHASH && HeadOf(b) !in w :: |s'.heads| == NHASH && s'.heads[b] == s.heads[b])
  {
    WriteListed(s, t, c);
    StoreChanges(s, t, Line(s, t, c).write);
  }

  lemma WriteListed(s: Machine, t: Tid, c: Choice)
    requires Fires(s, t, c)
    ensures var w, places := Line(s, t, c).write, Writes(s, s.pc[t]);
      match w
      case SetCount(r, _) => CountOf(r) in places
      case SetNext(r, _) => NextOf(r) in places
      case SetHead(b, _) => HeadOf(b) in places
      case FreeNode(r) => CountOf(r) in places && NextOf(r) in places
      case NewNode(r, _) => r !in s.heap
      case _ => true
  {
  }

  lemma StoreChanges(s: Machine, t: Tid, w: Write)
    ensures forall r | r in s.heap && w != FreeNode(r) && !(w.SetCount? && w.r == r) && !(w.NewNode? && w.r == r) ::
      r in Store(s, t, w).heap && Store(s, t, w).heap[r].count == s.heap[r].count
    ensures forall r | r in s.heap && w != FreeNode(r) && !(w.SetNext? && w.r == r) && !(w.NewNode? && w.r == r) ::
      r in Store(s, t, w).heap && Store(s, t, w).heap[r].next == s.heap[r].next
    ensures |Store(s, t, w).heads| == |s.heads|
    ensures forall b: nat | b < |s.heads| && !(w.SetHead? && w.b == b) :: Store(s, t, w).heads[b] == s.heads[b]
  {
  }

  /** Both memories hold the same at the given places. */
  ghost predicate Agree(s: Machine, s': Machine, places: set<Place>) {
    && (forall r | CountOf(r) in places && r in s.heap && r in s'.heap :: s'.heap[r].count == s.heap[r].count)
    && (forall r | NextOf(r) in places && r in s.heap && r in s'.heap :: s'.heap[r].next == s.heap[r].next)
    && (forall b: nat | HeadOf(b) in places && b < |s.heads| && b < |s'.heads| :: s'.heads[b] == s.heads[b])
  }

  /** What an action does depends on no other cell; ids never change. */
  lemma ReadsAreAll(s: Machine, s': Machine, t: Tid, c: Choice)
    requires Fires(s, t, c) && Fires(s', t, c)
    requires s'.ver == s.ver && s'.pc[t] == s.pc[t] && s'.ledger == s.ledger
    requires forall r | r in s.heap && r in s'.heap :: s'.heap[r].id == s.heap[r].id
    requires Agree(s, s', Reads(s, s.pc[t]))
    ensures Line(s', t, c) == Line(s, t, c)
  {
  }

  // ---------- accesses are guarded ----------

  /** Except for the final free, a count is accessed under its lock and a link or head under `hashlock`. */
  lemma Guarded(s: Machine, pc: Pc, x: Place)
    requires Fits(s.ver, pc) && !pc.RFree? && x in Reads(s, pc) + Writes(s, pc)
    ensures if x.CountOf? then Guards(s.ver, pc, x.r) else HoldsHash(s.ver, pc)
  {
  }

  /** Every object accessed is in the table or private to the thread. */
  lemma AccessedLive(s: Machine, a: Spec, t: Tid, pc: Pc, x: Place)
    requires Known(a) && t < |a.status| && Local(s.ver, a, t, pc)
    requires forall k | k in a.ledger :: a.ledger[k].ref in a.order
    requires pc.FScan? && pc.cur.Some? ==> pc.cur.value in a.order
    requires pc.RWalk? && pc.cur.Some? ==> pc.cur.value in a.order
    requires x in Reads(s, pc) + Writes(s, pc) && !x.HeadOf?
    ensures x.r in a.order || Private(pc) == Some(x.r)
  {
  }

  lemma PrivateApart(s: Machine, a: Spec, t: Tid, u: Tid)
    requires PrivateInv(s, a) && t < |s.pc| && u < |s.pc| && t != u && Private(s.pc[t]).Some?
    ensures Private(s.pc[t]).value !in a.order && Private(s.pc[u]) != Private(s.pc[t])
  {
    var priv := Privates(s);
    assert priv[t] == Private(s.pc[t]) && priv[u] == Private(s.pc[u]);
  }

  /** What one thread is freeing no other thread is about to access. */
  lemma FreeingApart(s: Machine, a: Spec, t: Tid, u: Tid, x: Place)
    requires Known(a) && |s.pc| == |a.status| && LocalInv(s, a) && PrivateInv(s, a)
    requires forall k | k in a.ledger :: a.ledger[k].ref in a.order
    requires t < |s.pc| && u < |s.pc| && t != u && s.pc[t].RFree?
    ensures x !in Writes(s, s.pc[t]) || x !in Reads(s, s.pc[u]) + Writes(s, s.pc[u])
  {
    LocalCursor(s, a, u);
    CursorsInTable(a, s.pc[u]);
    PrivateApart(s, a, t, u);
    if x in Reads(s, s.pc[u]) + Writes(s, s.pc[u]) && !x.HeadOf? {
      AccessedLive(s, a, u, s.pc[u], x);
    }
  }

  lemma LockedApart(s: Machine, a: Spec, t: Tid, u: Tid, x: Place)
    requires Known(a) && |s.pc| == |a.status| && LocalInv(s, a) && HashInv(s) && ObjLockInv(s)
    requires t < |s.pc| && u < |s.pc| && t != u && !s.pc[t].RFree? && !s.pc[u].RFree?
    ensures x !in Writes(s, s.pc[t]) || x !in Reads(s, s.pc[u]) + Writes(s, s.pc[u])
  {
    if x in Writes(s, s.pc[t]) && x in Reads(s, s.pc[u]) + Writes(s, s.pc[u]) {
      LocalCursor(s, a, t);
      LocalCursor(s, a, u);
      LocalFits(s.ver, a, t, s.pc[t]);
      LocalFits(s.ver, a, u, s.pc[u]);
      Guarded(s, s.pc[t], x);
      Guarded(s, s.pc[u], x);
      if x.CountOf? { GuardsExclusive(s, t, u, x.r); }
    }
  }

  lemma Apart(s: Machine, a: Spec, t: Tid, u: Tid)
    requires Known(a) && |s.pc| == |a.status| && LocalInv(s, a) && PrivateInv(s, a) && HashInv(s) && ObjLockInv(s)
    requires forall k | k in a.ledger :: a.ledger[k].ref in a.order
    requires t < |s.pc| && u < |s.pc| && t != u
    ensures Writes(s, s.pc[t]) !! Reads(s, s.pc[u]) + Writes(s, s.pc[u])
  {
    forall x ensures x !in Writes(s, s.pc[t]) || x !in Reads(s, s.pc[u]) + Writes(s, s.pc[u]) {
      if s.pc[t].RFree? {
        FreeingApart(s, a, t, u, x);
      } else if s.pc[u].RFree? {
        FreedApart(s, a, t, u, x);
      } else {
        LockedApart(s, a, t, u, x);
      }
    }
  }

  lemma FreedApart(s: Machine, a: Spec, t: Tid, u: Tid, x: Place)
    requires Known(a) && |s.pc| == |a.status| && LocalInv(s, a) && PrivateInv(s, a)
    requires forall k | k in a.ledger :: a.ledger[k].ref in a.order
    requires t < |s.pc| && u < |s.pc| && t != u && s.pc[u].RFree?
    ensures x !in Writes(s, s.pc[t]) || x !in Reads(s, s.pc[u]) + Writes(s, s.pc[u])
  {
    FreeingApart(s, a, u, t, x);
    assert Reads(s, s.pc[u]) == {};
  }

  /** In no reachable state are two threads about to access the same count, link
      or list head, one of them writing. */
  lemma NoRaces(v: Version, n: nat, s: Machine, t: Tid, u: Tid)
    requires Reachable(v, n, s) && t < |s.pc| && u < |s.pc| && t != u
    ensures Writes(s, s.pc[t]) !! Reads(s, s.pc[u]) + Writes(s, s.pc[u])
  {
    var a := ReachableInv(v, n, s);
    Apart(s, a, t, u);
  }
}
