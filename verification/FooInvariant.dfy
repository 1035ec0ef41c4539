/** The inductive invariant of the table, relating a machine state to the state
    of the atomic specification, and its preservation by every step. */
module FooInvariant {
  import opened Basics
  import opened FooSpec
  import opened FooChains
  import opened FooTable

  ghost predicate Owns(a: Spec, t: Tid, k: Token, fp: Ref) {
    k in a.ledger && a.ledger[k] == Loan(t, fp)
  }

  ghost predicate Sole(a: Spec, k: Token, fp: Ref) {
    Tokens(a.ledger, fp) == {k}
  }

  ghost predicate Known(a: Spec) {
    forall x | x in a.order :: x in a.ids
  }

  /** A find has looked at the first objects of its bucket and passed them rightly. */
  ghost predicate Scanning(a: Spec, id: int, cur: Option<Ref>)
    requires Known(a)
  {
    var c := Bucket(a.order, a.ids, Hash(id));
    && (forall x | x in c :: x in a.ids)
    && exists i | 0 <= i <= |c| ::
         cur == LinkAfter(c, i) && Newest(c, a.ids, id) == Newest(c[i..], a.ids, id)
  }

  /** The unlink walk is at an object strictly before `fp` in the chain of `fp`. */
  ghost predicate Walking(a: Spec, fp: Ref, cur: Option<Ref>)
    requires Known(a)
  {
    && fp in a.ids
    && var c := Bucket(a.order, a.ids, Hash(a.ids[fp]));
       exists i, j | 0 <= i < j < |c| :: cur == LinkAfter(c, i) && c[j] == fp
  }

  ghost predicate Local(v: Version, a: Spec, t: Tid, pc: Pc)
    requires t < |a.status| && Known(a)
  {
    var st := a.status[t];
    match pc
    case Idle => st == Ready
    case AMalloc(id) => st == Called(Alloc(id))
    case ALockHash(id, _) => st == Called(Alloc(id))
    case ALink(id, _) => st == Called(Alloc(id))
    case APublish(id, _) => st == Called(Alloc(id))
    case ALockObj(fp, k) => st == Done(Some(fp)) && Owns(a, t, k, fp)
    case AUnlockHash(fp, k) => st == Done(Some(fp)) && Owns(a, t, k, fp)
    case AUnlockObj(fp, k) => st == Done(Some(fp)) && Owns(a, t, k, fp)
    case HLock(fp, k) => st == Called(Hold(k)) && Owns(a, t, k, fp)
    case HInc(fp, k) => st == Called(Hold(k)) && Owns(a, t, k, fp)
    case HUnlock(_) => st == Done(None)
    case FLockHash(id) => st == Called(Find(id))
    case FHead(id) => st == Called(Find(id))
    case FScan(id, cur) => st == Called(Find(id)) && Scanning(a, id, cur)
    case FLockObj(id, fp) =>
      v.Two? && st == Called(Find(id)) && fp in a.order && Newest(a.order, a.ids, id) == Some(fp)
    case FInc(id, fp) => st == Called(Find(id)) && fp in a.order && Newest(a.order, a.ids, id) == Some(fp)
    case FUnlockObj(fp) => v.Two? && st == Done(Some(fp))
    case FUnlockHash(res) => st == Done(res)
    case RLock(fp, k) => st == Called(Rele(k)) && Owns(a, t, k, fp)
    case RTest(fp, k) => st == Called(Rele(k)) && Owns(a, t, k, fp)
    case RDec(fp, k) => v.Two? && st == Called(Rele(k)) && Owns(a, t, k, fp) && !Sole(a, k, fp)
    case RUnlock(_) => st == Done(None)
    case RDrop(fp, k) => v.Two? && st == Called(Rele(k)) && Owns(a, t, k, fp) && Sole(a, k, fp)
    case RLockHash(fp, k) => v.Two? && st == Called(Rele(k)) && Owns(a, t, k, fp)
    case RRelock(fp, k) => v.Two? && st == Called(Rele(k)) && Owns(a, t, k, fp)
    case RRetest(fp, k) => v.Two? && st == Called(Rele(k)) && Owns(a, t, k, fp)
    case RDecSlow(fp, k) => v.Two? && st == Called(Rele(k)) && Owns(a, t, k, fp) && !Sole(a, k, fp)
    case RUnlockObjSlow(_) => v.Two? && st == Done(None)
    case RUnlockHashSlow => v.Two? && st == Done(None)
    case RHead(fp, k) => st == Called(Rele(k)) && Owns(a, t, k, fp) && Sole(a, k, fp)
    case RWalk(fp, k, cur) =>
      st == Called(Rele(k)) && Owns(a, t, k, fp) && Sole(a, k, fp) && Walking(a, fp, cur)
    case RUnlockHashLast(_) => st == Done(None)
    case RUnlockObjLast(_) => v.Two? && st == Done(None)
    case RFree(_) => st == Done(None)
    case Return(res) => st == Done(res)
  }

  ghost predicate Shape(s: Machine, a: Spec) {
    && |s.heads| == NHASH
    && |s.pc| == |a.status|
    && s.ledger == a.ledger
    && SpecInv(a)
  }

  ghost predicate HashInv(s: Machine) {
    && (forall t | 0 <= t < |s.pc| :: HoldsHash(s.ver, s.pc[t]) <==> s.hash == Some(t))
    && (s.hash.Some? ==> s.hash.value < |s.pc|)
  }

  /** `held[t]` is the object whose lock thread `t` holds. */
  ghost predicate LocksAgree(heap: map<Ref, Node>, held: seq<Option<Ref>>) {
    && (forall t | 0 <= t < |held| && held[t].Some? :: held[t].value in heap && heap[held[t].value].lock == Some(t))
    && (forall r | r in heap && heap[r].lock.Some? ::
          heap[r].lock.value < |held| && held[heap[r].lock.value] == Some(r))
  }

  ghost function Held(s: Machine): seq<Option<Ref>> {
    seq(|s.pc|, t requires 0 <= t < |s.pc| => HoldsObj(s.ver, s.pc[t]))
  }

  ghost predicate ObjLockInv(s: Machine) {
    LocksAgree(s.heap, Held(s))
  }

  /** What a thread knows about the object it has allocated and not yet linked. */
  ghost predicate FreshNode(s: Machine, pc: Pc) {
    match pc
    case ALockHash(id, fp) => fp in s.heap && s.heap[fp].id == id && s.heap[fp].count == 1
    case ALink(id, fp) => fp in s.heap && s.heap[fp].id == id && s.heap[fp].count == 1
    case APublish(id, fp) =>
      && fp in s.heap && s.heap[fp].id == id && s.heap[fp].count == 1
      && |s.heads| == NHASH && s.heap[fp].next == s.heads[Hash(id)]
    case _ => true
  }

  ghost predicate FreshInv(s: Machine) {
    forall t | 0 <= t < |s.pc| :: FreshNode(s, s.pc[t])
  }

  ghost function Privates(s: Machine): seq<Option<Ref>> {
    seq(|s.pc|, t requires 0 <= t < |s.pc| => Private(s.pc[t]))
  }

  /** The allocated objects are exactly those of the table and those in the hands
      of one call each; in particular nothing leaks. */
  ghost predicate Accounted(heap: map<Ref, Node>, order: seq<Ref>, priv: seq<Option<Ref>>) {
    && (forall r | r in order :: r in heap)
    && (forall t | 0 <= t < |priv| && priv[t].Some? :: priv[t].value in heap && priv[t].value !in order)
    && (forall t, u | 0 <= t < u < |priv| && priv[t].Some? :: priv[t] != priv[u])
    && (forall r | r in heap && r !in order :: Some(r) in priv)
  }

  ghost predicate PrivateInv(s: Machine, a: Spec) {
    Accounted(s.heap, a.order, Privates(s))
  }

  /** A locked object is in the table, or private to the thread that locked it. */
  ghost predicate LockedInv(s: Machine, a: Spec) {
    forall t | 0 <= t < |s.pc| && HoldsObj(s.ver, s.pc[t]).Some? ::
      HoldsObj(s.ver, s.pc[t]).value in a.order || Private(s.pc[t]) == HoldsObj(s.ver, s.pc[t])
  }

  ghost function ZeroedBy(s: Machine): Option<Ref> {
    if s.hash.Some? && s.hash.value < |s.pc| then Zeroed(s.ver, s.pc[s.hash.value]) else None
  }

  /** Every object of the table is allocated and its count is the number of
      outstanding references; `z` is an object mutex3.c has decremented to 0 and
      is about to unlink on behalf of its last reference. */
  ghost predicate Counts(heap: map<Ref, Node>, order: seq<Ref>, ids: map<Ref, int>, ledger: map<Token, Loan>, z: Option<Ref>) {
    forall r | r in order ::
      && r in heap && r in ids && heap[r].id == ids[r]
      && heap[r].count + (if z == Some(r) then 1 else 0) == |Tokens(ledger, r)|
  }

  ghost predicate NodeInv(s: Machine, a: Spec) {
    Counts(s.heap, a.order, a.ids, a.ledger, ZeroedBy(s))
  }

  ghost predicate ChainInv(s: Machine, a: Spec)
    requires Known(a) && |s.heads| == NHASH
  {
    forall b: nat | b < NHASH :: Chain(s.heap, s.heads[b], Bucket(a.order, a.ids, b))
  }

  ghost predicate LocalInv(s: Machine, a: Spec)
    requires Known(a) && |s.pc| == |a.status|
  {
    forall t | 0 <= t < |s.pc| :: Local(s.ver, a, t, s.pc[t])
  }

  ghost predicate WindowInv(s: Machine) {
    forall t, u | 0 <= t < u < |s.pc| && Slow(s.ver, s.pc[t]).Some? :: Slow(s.ver, s.pc[t]) != Slow(s.ver, s.pc[u])
  }

  ghost predicate Inv(s: Machine, a: Spec) {
    && Shape(s, a)
    && HashInv(s)
    && ObjLockInv(s)
    && PrivateInv(s, a)
    && FreshInv(s)
    && LockedInv(s, a)
    && NodeInv(s, a)
    && ChainInv(s, a)
    && LocalInv(s, a)
    && WindowInv(s)
  }

  // ---------- initially ----------

  lemma InitInv(v: Version, n: nat)
    ensures Inv(Init(v, n), SpecInit(n))
  {
  }

  lemma BucketHas(a: Spec, r: Ref) returns (j: nat)
    requires SpecInv(a) && r in a.order
    ensures Known(a)
    ensures j < |Bucket(a.order, a.ids, Hash(a.ids[r]))| && Bucket(a.order, a.ids, Hash(a.ids[r]))[j] == r
  {
    var c := Bucket(a.order, a.ids, Hash(a.ids[r]));
    BucketMembers(a.order, a.ids, Hash(a.ids[r]));
    assert r in c;
    j :| 0 <= j < |c| && c[j] == r;
  }

  // ---------- what one line of the program does ----------

  /** The program counter belongs to the version. */
  ghost predicate Fits(v: Version, pc: Pc) {
    v.One? ==>
      !(pc.FLockObj? || pc.FUnlockObj? || pc.RDec? || pc.RDrop? || pc.RLockHash? || pc.RRelock? || pc.RRetest?
        || pc.RDecSlow? || pc.RUnlockObjSlow? || pc.RUnlockHashSlow? || pc.RUnlockObjLast?)
  }

  lemma HashMoved(s: Machine, t: Tid, c: Choice)
    requires Fires(s, t, c) && Fits(s.ver, s.pc[t])
    ensures var x, pc := Line(s, t, c), s.pc[t];
      && Fits(s.ver, x.next)
      && (HoldsHash(s.ver, x.next) <==> x.write.LockHash? || (HoldsHash(s.ver, pc) && !x.write.UnlockHash?))
      && (x.write.LockHash? ==> s.hash.None?)
      && (x.write.UnlockHash? ==> HoldsHash(s.ver, pc))
  {
  }

  lemma ObjMoved(s: Machine, t: Tid, c: Choice)
    requires Fires(s, t, c) && Fits(s.ver, s.pc[t])
    ensures var x, pc := Line(s, t, c), s.pc[t];
      && HoldsObj(s.ver, x.next) ==
           (if x.write.LockObj? then Some(x.write.r) else if x.write.UnlockObj? then None else HoldsObj(s.ver, pc))
      && (x.write.LockObj? ==>
            x.write.r in s.heap && s.heap[x.write.r].lock.None? && HoldsObj(s.ver, pc).None?)
      && (x.write.UnlockObj? ==> HoldsObj(s.ver, pc) == Some(x.write.r))
  {
  }

  predicate Publishes(s: Machine, t: Tid, x: Act)
    requires t < |s.pc|
  {
    s.pc[t].APublish?
  }

  predicate Unlinks(x: Act) {
    x.next.RUnlockHashLast?
  }

  /** How a line changes the object its thread has to itself. */
  ghost predicate PrivateShift(s: Machine, t: Tid, x: Act)
    requires t < |s.pc|
  {
    var pc := s.pc[t];
    if x.write.NewNode? then
      !Publishes(s, t, x) && !Unlinks(x) && Private(pc).None? && Private(x.next) == Some(x.write.r) && x.write.r !in s.heap
    else if x.write.FreeNode? then
      && !Publishes(s, t, x) && !Unlinks(x)
      && Private(pc) == Some(x.write.r) && Private(x.next).None? && HoldsObj(s.ver, pc).None?
    else if Publishes(s, t, x) then !Unlinks(x) && Private(x.next).None?
    else if Unlinks(x) then Private(pc).None?
    else Private(x.next) == Private(pc)
  }

  lemma PrivateMoved(s: Machine, t: Tid, c: Choice)
    requires Fires(s, t, c) && Fits(s.ver, s.pc[t])
    ensures PrivateShift(s, t, Line(s, t, c))
  {
  }

  lemma HashKept(s: Machine, t: Tid, x: Act)
    requires HashInv(s) && t < |s.pc|
    requires HoldsHash(s.ver, x.next) <==> x.write.LockHash? || (HoldsHash(s.ver, s.pc[t]) && !x.write.UnlockHash?)
    requires x.write.LockHash? ==> s.hash.None?
    requires x.write.UnlockHash? ==> HoldsHash(s.ver, s.pc[t])
    ensures HashInv(Perform(s, t, x))
  {
  }

  lemma HeldAfter(s: Machine, t: Tid, x: Act)
    requires t < |s.pc|
    ensures Held(Perform(s, t, x)) == Held(s)[t := HoldsObj(s.ver, x.next)]
  {
    var s' := Perform(s, t, x);
    forall u | 0 <= u < |s.pc| ensures Held(s')[u] == Held(s)[t := HoldsObj(s.ver, x.next)][u] {
    }
  }

  /** The heap after a write, and the locks held after it. */
  lemma LocksAgreeKept(s: Machine, held: seq<Option<Ref>>, t: Tid, w: Write, h: Option<Ref>)
    requires LocksAgree(s.heap, held) && t < |held|
    requires h == (if w.LockObj? then Some(w.r) else if w.UnlockObj? then None else held[t])
    requires w.LockObj? ==> w.r in s.heap && s.heap[w.r].lock.None? && held[t].None?
    requires w.UnlockObj? ==> held[t] == Some(w.r)
    requires w.NewNode? ==> w.r !in s.heap
    requires w.FreeNode? && w.r in s.heap ==> s.heap[w.r].lock.None?
    ensures LocksAgree(Store(s, t, w).heap, held[t := h])
  {
    var heap' := Store(s, t, w).heap;
    var held' := held[t := h];
    if !w.LockObj? && !w.UnlockObj? {
      assert held' == held;
    }
  }

  lemma PrivatesAfter(s: Machine, t: Tid, x: Act)
    requires t < |s.pc|
    ensures Privates(Perform(s, t, x)) == Privates(s)[t := Private(x.next)]
  {
    var s' := Perform(s, t, x);
    forall u | 0 <= u < |s.pc| ensures Privates(s')[u] == Privates(s)[t := Private(x.next)][u] {
    }
  }

  lemma AccountedNew(heap: map<Ref, Node>, order: seq<Ref>, priv: seq<Option<Ref>>, t: Tid, r: Ref, n: Node)
    requires Accounted(heap, order, priv) && t < |priv| && priv[t].None? && r !in heap
    ensures Accounted(heap[r := n], order, priv[t := Some(r)])
  {
    var priv' := priv[t := Some(r)];
    assert priv'[t] == Some(r);
    forall x | x in heap[r := n] && x !in order ensures Some(x) in priv' {
      if x != r {
        var u :| 0 <= u < |priv| && priv[u] == Some(x);
        assert priv'[u] == Some(x);
      }
    }
  }

  lemma AccountedFree(heap: map<Ref, Node>, order: seq<Ref>, priv: seq<Option<Ref>>, t: Tid, r: Ref)
    requires Accounted(heap, order, priv) && t < |priv| && priv[t] == Some(r)
    ensures Accounted(heap - {r}, order, priv[t := None])
  {
    var priv' := priv[t := None];
    forall x | x in heap - {r} && x !in order ensures Some(x) in priv' {
      var u :| 0 <= u < |priv| && priv[u] == Some(x);
      assert priv'[u] == Some(x);
    }
  }

  lemma AccountedMove(heap: map<Ref, Node>, order: seq<Ref>, order': seq<Ref>, priv: seq<Option<Ref>>,
                      t: Tid, r: Ref, out: bool)
    requires Accounted(heap, order, priv) && t < |priv| && r in heap
    requires if out then priv[t].None? && r in order else priv[t] == Some(r)
    requires forall x :: x in order' <==> (if x == r then !out else x in order)
    ensures Accounted(heap, order', priv[t := if out then Some(r) else None])
  {
    var priv' := priv[t := if out then Some(r) else None];
    assert priv'[t] == if out then Some(r) else None;
    forall x | x in heap && x !in order' ensures Some(x) in priv' {
      if x != r {
        var u :| 0 <= u < |priv| && priv[u] == Some(x);
        assert priv'[u] == Some(x);
      }
    }
  }
}
