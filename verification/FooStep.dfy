/** One step of the table keeps the whole invariant. */
module FooStep {
  import opened Basics
  import opened FooSpec
  import opened FooChains
  import opened FooTable
  import opened FooInvariant
  import opened FooSimulation
  import opened FooPreservation

  /** Facts about the object a line writes to, used by all parts below. */
  ghost predicate Targets(s: Machine, a: Spec, t: Tid, x: Act)
    requires t < |s.pc|
  {
    var pc := s.pc[t];
    && (x.write.SetCount? ==> x.write.r in a.order)
    && (x.write.SetNext? && !Unlinks(x) ==> Private(pc) == Some(x.write.r))
    && (x.write.SetHead? ==> Unlinks(x) || Publishes(s, t, x))
    && (Publishes(s, t, x) ==>
          && x.books.Add? && x.books.loan == Loan(t, pc.fp) && x.write == SetHead(Hash(pc.id), Some(pc.fp)))
    && (x.books.Drop? ==> x.books.k in a.ledger && a.ledger[x.books.k].holder == t)
    && (x.books.Drop? && !Unlinks(x) ==> x.write.SetCount? && a.ledger[x.books.k].ref == x.write.r)
    && (Unlinks(x) ==> UnlinkTarget(s, a, pc, x))
  }

  ghost predicate UnlinkTarget(s: Machine, a: Spec, pc: Pc, x: Act)
    requires Unlinks(x)
  {
    var fp := x.next.fp;
    && x.books.Drop? && x.books.k in a.ledger && a.ledger[x.books.k].ref == fp
    && fp in a.order && fp in s.heap && Sole(a, x.books.k, fp)
    && HoldsHash(s.ver, pc)
    && (s.ver.Two? ==> HoldsObj(s.ver, pc) == Some(fp))
    && (s.ver.One? ==> Zeroed(s.ver, pc) == Some(fp))
    && |s.heads| == NHASH
    && (match x.write
        case SetHead(b, p) => b == Hash(s.heap[fp].id) && p == s.heap[fp].next && s.heads[b] == Some(fp)
        case SetNext(r, p) =>
          && p == s.heap[fp].next && r in s.heap && s.heap[r].next == Some(fp)
          && pc.RWalk? && pc.fp == fp && pc.cur == Some(r)
        case _ => false)
  }

  lemma TargetsHold(s: Machine, a: Spec, t: Tid, c: Choice)
    requires Aligned(s, a) && Fires(s, t, c) && Local(s.ver, a, t, s.pc[t])
    requires forall k | k in a.ledger :: a.ledger[k].ref in a.order
    ensures Targets(s, a, t, Line(s, t, c))
  {
  }

  lemma HashStep(s: Machine, t: Tid, c: Choice)
    requires Fires(s, t, c) && Fits(s.ver, s.pc[t]) && HashInv(s)
    ensures HashInv(After(s, t, c))
  {
    HashMoved(s, t, c);
    HashKept(s, t, Line(s, t, c));
  }

  /** A locked object is nobody else's private object. */
  lemma LockedNotPrivate(s: Machine, a: Spec, t: Tid, u: Tid)
    requires PrivateInv(s, a) && LockedInv(s, a) && t < |s.pc| && u < |s.pc| && t != u
    requires HoldsObj(s.ver, s.pc[u]).Some?
    ensures Private(s.pc[t]) != HoldsObj(s.ver, s.pc[u])
  {
    var priv := Privates(s);
    assert priv[t] == Private(s.pc[t]) && priv[u] == Private(s.pc[u]);
  }

  lemma LockHolder(s: Machine, r: Ref) returns (u: Tid)
    requires ObjLockInv(s) && r in s.heap && s.heap[r].lock.Some?
    ensures u < |s.pc| && HoldsObj(s.ver, s.pc[u]) == Some(r)
  {
    u := s.heap[r].lock.value;
    assert Held(s)[u] == Some(r);
  }

  /** A thread that is freeing its object left it unlocked. */
  lemma FreedUnlocked(s: Machine, a: Spec, t: Tid, r: Ref)
    requires ObjLockInv(s) && PrivateInv(s, a) && LockedInv(s, a)
    requires t < |s.pc| && Private(s.pc[t]) == Some(r) && HoldsObj(s.ver, s.pc[t]).None?
    ensures r in s.heap ==> s.heap[r].lock.None?
  {
    if r in s.heap && s.heap[r].lock.Some? {
      var u := LockHolder(s, r);
      LockedNotPrivate(s, a, t, u);
    }
  }

  lemma ObjLockStep(s: Machine, a: Spec, t: Tid, c: Choice)
    requires Fires(s, t, c) && Fits(s.ver, s.pc[t]) && ObjLockInv(s) && PrivateInv(s, a) && LockedInv(s, a)
    ensures ObjLockInv(After(s, t, c))
  {
    var x := Line(s, t, c);
    ObjMoved(s, t, c);
    PrivateMoved(s, t, c);
    if x.write.FreeNode? {
      FreedUnlocked(s, a, t, x.write.r);
    }
    HeldAfter(s, t, x);
    assert Held(s)[t] == HoldsObj(s.ver, s.pc[t]);
    LocksAgreeKept(s, Held(s), t, x.write, HoldsObj(s.ver, x.next));
  }

  lemma AccountedWrite(s: Machine, order: seq<Ref>, priv: seq<Option<Ref>>, t: Tid, w: Write, p: Option<Ref>)
    requires Accounted(s.heap, order, priv) && t < |priv|
    requires w.NewNode? ==> priv[t].None? && p == Some(w.r) && w.r !in s.heap
    requires w.FreeNode? ==> priv[t] == Some(w.r) && p.None?
    requires !w.NewNode? && !w.FreeNode? ==> p == priv[t]
    ensures Accounted(Store(s, t, w).heap, order, priv[t := p])
  {
    if w.NewNode? {
      AccountedNew(s.heap, order, priv, t, w.r, Node(1, w.id, None, None));
    } else if w.FreeNode? {
      AccountedFree(s.heap, order, priv, t, w.r);
    } else {
      assert priv[t := p] == priv;
      AccountedKeys(s.heap, Store(s, t, w).heap, order, priv);
    }
  }

  lemma AccountedPublish(s: Machine, order: seq<Ref>, priv: seq<Option<Ref>>, t: Tid, b: nat, fp: Ref)
    requires Accounted(s.heap, order, priv) && t < |priv| && priv[t] == Some(fp)
    ensures Accounted(Store(s, t, SetHead(b, Some(fp))).heap, [fp] + order, priv[t := None])
  {
    AccountedMove(s.heap, order, [fp] + order, priv, t, fp, false);
  }

  lemma {:induction false} AccountedUnlink(s: Machine, order: seq<Ref>, priv: seq<Option<Ref>>, t: Tid, w: Write, fp: Ref)
    requires Accounted(s.heap, order, priv) && t < |priv| && priv[t].None? && fp in order && Distinct(order)
    requires w.SetHead? || w.SetNext?
    ensures Accounted(Store(s, t, w).heap, Without(order, fp), priv[t := Some(fp)])
  {
    WithoutMembers(order, fp);
    AccountedMove(s.heap, order, Without(order, fp), priv, t, fp, true);
    AccountedKeys(s.heap, Store(s, t, w).heap, Without(order, fp), priv[t := Some(fp)]);
  }

  lemma PrivateKept(s: Machine, a: Spec, a': Spec, t: Tid, x: Act)
    requires t < |s.pc| && PrivateInv(s, a) && Distinct(a.order)
    requires Tracks(s, a, a', t, x) && Targets(s, a, t, x)
    requires PrivateShift(s, t, x)
    ensures PrivateInv(Perform(s, t, x), a')
  {
    var priv := Privates(s);
    PrivatesAfter(s, t, x);
    assert priv[t] == Private(s.pc[t]);
    assert Perform(s, t, x).heap == Store(s, t, x.write).heap;
    if Publishes(s, t, x) {
      AccountedPublish(s, a.order, priv, t, x.write.b, s.pc[t].fp);
    } else if Unlinks(x) {
      AccountedUnlink(s, a.order, priv, t, x.write, x.next.fp);
    } else {
      AccountedWrite(s, a.order, priv, t, x.write, Private(x.next));
    }
  }

  lemma AccountedKeys(heap: map<Ref, Node>, heap': map<Ref, Node>, order: seq<Ref>, priv: seq<Option<Ref>>)
    requires Accounted(heap, order, priv) && heap'.Keys == heap.Keys
    ensures Accounted(heap', order, priv)
  {
    assert forall r :: r in heap' <==> r in heap;
  }

  // ---------- objects not yet linked ----------

  lemma FreshOwn(s: Machine, t: Tid, c: Choice)
    requires Fires(s, t, c) && FreshNode(s, s.pc[t])
    ensures FreshNode(After(s, t, c), Line(s, t, c).next)
  {
  }

  lemma FreshOther(s: Machine, t: Tid, w: Write, ledger: map<Token, Loan>, pcs: seq<Pc>, pc: Pc)
    requires FreshNode(s, pc)
    requires w.SetHead? || w.SetNext? ==> !pc.APublish?
    requires Private(pc).Some? ==>
      && (w.SetCount? ==> w.r != Private(pc).value)
      && (w.FreeNode? ==> w.r != Private(pc).value)
      && (w.NewNode? ==> w.r !in s.heap)
    ensures FreshNode(Store(s, t, w).(ledger := ledger, pc := pcs), pc)
  {
  }

  lemma FreshStep(s: Machine, a: Spec, t: Tid, c: Choice)
    requires Fires(s, t, c) && Fits(s.ver, s.pc[t]) && HashInv(s) && PrivateInv(s, a) && FreshInv(s)
    requires Targets(s, a, t, Line(s, t, c))
    ensures FreshInv(After(s, t, c))
  {
    var x := Line(s, t, c);
    FreshOwn(s, t, c);
    CountMoved(s, t, c);
    PrivateMoved(s, t, c);
    FreshOthers(s, a, t, x);
  }

  lemma FreshOthers(s: Machine, a: Spec, t: Tid, x: Act)
    requires t < |s.pc| && HashInv(s) && PrivateInv(s, a) && FreshInv(s)
    requires x.write.SetHead? || x.write.SetNext? ==> HoldsHash(s.ver, s.pc[t])
    requires x.write.SetCount? ==> x.write.r in a.order
    requires x.write.FreeNode? ==> Private(s.pc[t]) == Some(x.write.r)
    requires x.write.NewNode? ==> x.write.r !in s.heap
    requires FreshNode(Perform(s, t, x), x.next)
    ensures FreshInv(Perform(s, t, x))
  {
    var s' := Perform(s, t, x);
    var priv := Privates(s);
    forall u | 0 <= u < |s.pc| ensures FreshNode(s', s'.pc[u]) {
      if u != t {
        assert priv[u] == Private(s.pc[u]) && priv[t] == Private(s.pc[t]);
        FreshOther(s, t, x.write, s'.ledger, s'.pc, s.pc[u]);
      }
    }
  }

  // ---------- locked objects ----------

  lemma LockedOwn(s: Machine, a: Spec, a': Spec, t: Tid, c: Choice)
    requires Aligned(s, a) && Fires(s, t, c) && Local(s.ver, a, t, s.pc[t])
    requires Tracks(s, a, a', t, Line(s, t, c)) && Distinct(a.order)
    requires forall k | k in a.ledger :: a.ledger[k].ref in a.order
    requires HoldsObj(s.ver, s.pc[t]).Some? ==>
      HoldsObj(s.ver, s.pc[t]).value in a.order || Private(s.pc[t]) == HoldsObj(s.ver, s.pc[t])
    ensures var pc' := Line(s, t, c).next;
      HoldsObj(s.ver, pc').Some? ==> HoldsObj(s.ver, pc').value in a'.order || Private(pc') == HoldsObj(s.ver, pc')
  {
  }

  /** In mutex3.c only an allocation holds an object lock, and it still owns its first reference. */
  lemma LockedInOne(a: Spec, u: Tid, pc: Pc)
    requires u < |a.status| && Known(a) && Local(One, a, u, pc) && HoldsObj(One, pc).Some?
    ensures exists k :: Owns(a, u, k, HoldsObj(One, pc).value)
  {
  }

  /** Nobody else holds the lock of an object that is being unlinked. */
  lemma UnlinkedNotLocked(s: Machine, a: Spec, t: Tid, u: Tid, x: Act)
    requires t < |s.pc| && u < |s.pc| && t != u && Unlinks(x) && UnlinkTarget(s, a, s.pc[t], x)
    requires a.ledger[x.books.k].holder == t
    requires Aligned(s, a) && Local(s.ver, a, u, s.pc[u]) && ObjLockInv(s)
    ensures HoldsObj(s.ver, s.pc[u]) != Some(x.next.fp)
  {
    var held := Held(s);
    assert held[t] == HoldsObj(s.ver, s.pc[t]) && held[u] == HoldsObj(s.ver, s.pc[u]);
    if s.ver.One? && HoldsObj(One, s.pc[u]).Some? {
      LockedInOne(a, u, s.pc[u]);
      var k :| Owns(a, u, k, HoldsObj(One, s.pc[u]).value);
      assert k in Tokens(a.ledger, HoldsObj(One, s.pc[u]).value);
    }
  }

  lemma LockedStep(s: Machine, a: Spec, a': Spec, t: Tid, c: Choice)
    requires Aligned(s, a) && Fires(s, t, c) && LocalInv(s, a) && ObjLockInv(s) && LockedInv(s, a)
    requires Tracks(s, a, a', t, Line(s, t, c)) && Distinct(a.order) && Targets(s, a, t, Line(s, t, c))
    requires forall k | k in a.ledger :: a.ledger[k].ref in a.order
    ensures LockedInv(After(s, t, c), a')
  {
    var x := Line(s, t, c);
    assert Local(s.ver, a, t, s.pc[t]);
    LockedOwn(s, a, a', t, c);
    LockedOthers(s, a, a', t, x);
  }

  lemma LockedOthers(s: Machine, a: Spec, a': Spec, t: Tid, x: Act)
    requires t < |s.pc| && Aligned(s, a) && LocalInv(s, a) && ObjLockInv(s) && LockedInv(s, a)
    requires Tracks(s, a, a', t, x) && Distinct(a.order) && Targets(s, a, t, x)
    requires HoldsObj(s.ver, x.next).Some? ==>
      HoldsObj(s.ver, x.next).value in a'.order || Private(x.next) == HoldsObj(s.ver, x.next)
    ensures LockedInv(Perform(s, t, x), a')
  {
    var s' := Perform(s, t, x);
    if Unlinks(x) { WithoutMembers(a.order, x.next.fp); }
    forall u | 0 <= u < |s.pc| && HoldsObj(s'.ver, s'.pc[u]).Some?
      ensures HoldsObj(s'.ver, s'.pc[u]).value in a'.order || Private(s'.pc[u]) == HoldsObj(s'.ver, s'.pc[u])
    {
      if u != t && Unlinks(x) {
        UnlinkedNotLocked(s, a, t, u, x);
      }
    }
  }

  // ---------- counts ----------

  lemma ZeroedStep(s: Machine, t: Tid, c: Choice)
    requires Fires(s, t, c) && Fits(s.ver, s.pc[t]) && HashInv(s) && HashInv(After(s, t, c))
    requires Unlinks(Line(s, t, c)) ==> HoldsHash(s.ver, s.pc[t])
    ensures var x := Line(s, t, c);
      && ZeroedBy(After(s, t, c)) ==
         (if x.write.SetCount? && x.books.Same? then Some(x.write.r) else if Unlinks(x) then None else ZeroedBy(s))
      && (x.write.SetCount? ==> ZeroedBy(s).None?)
  {
    CountMoved(s, t, c);
    ZeroedMoved(s, t, c);
    HashMoved(s, t, c);
    ZeroedAfter(s, t, Line(s, t, c));
  }

  lemma NoTokens(a: Spec, r: Ref)
    requires SpecInv(a) && r !in a.order
    ensures Tokens(a.ledger, r) == {}
  {
  }

  lemma CountsStep(s: Machine, a: Spec, a': Spec, t: Tid, x: Act, z: Option<Ref>, z': Option<Ref>)
    requires t < |s.pc| && SpecInv(a) && Counts(s.heap, a.order, a.ids, a.ledger, z)
    requires Tracks(s, a, a', t, x) && Targets(s, a, t, x) && FreshNode(s, s.pc[t])
    requires x.write.NewNode? ==> x.write.r !in s.heap
    requires x.write.FreeNode? ==> x.write.r !in a.order
    requires x.write.SetCount? ==> x.write.r in s.heap && z.None?
    requires Publishes(s, t, x) ==> z.None? && s.pc[t].fp !in a.order
    requires Unlinks(x) ==> z.None? || z == Some(x.next.fp)
    requires match x.books
      case Same => x.write.SetCount? ==> x.write.n == s.heap[x.write.r].count - 1
      case Add(k, loan) => k !in a.ledger
        && (!Publishes(s, t, x) ==> loan.ref in s.heap && x.write == SetCount(loan.ref, s.heap[loan.ref].count + 1))
      case Drop(k) => Unlinks(x) || (x.write.SetCount? && x.write.n == s.heap[x.write.r].count - 1)
      case Move(k, to) => k in a.ledger && x.write.Nothing?
    requires z' == if x.write.SetCount? && x.books.Same? then Some(x.write.r) else if Unlinks(x) then None else z
    ensures Counts(Store(s, t, x.write).heap, a'.order, a'.ids, a'.ledger, z')
  {
    if Publishes(s, t, x) {
      NoTokens(a, s.pc[t].fp);
      CountsPublish(s, a, x.books.k, x.books.loan, s.pc[t].id, z);
    } else if Unlinks(x) {
      CountsUnlink(s, a, t, x.write, x.books.k, x.next.fp, z);
    } else {
      CountsKept(s, a, t, x.write, x.books, z, z');
    }
  }

  lemma NodeStep(s: Machine, a: Spec, a': Spec, t: Tid, c: Choice)
    requires Fires(s, t, c) && Fits(s.ver, s.pc[t]) && SpecInv(a) && NodeInv(s, a) && PrivateInv(s, a)
    requires HashInv(s) && HashInv(After(s, t, c)) && s.ledger == a.ledger && FreshNode(s, s.pc[t])
    requires Tracks(s, a, a', t, Line(s, t, c)) && Targets(s, a, t, Line(s, t, c))
    ensures NodeInv(After(s, t, c), a')
  {
    var x := Line(s, t, c);
    CountMoved(s, t, c);
    PrivateMoved(s, t, c);
    ZeroedStep(s, t, c);
    var priv := Privates(s);
    assert priv[t] == Private(s.pc[t]);
    ZeroedHolder(s, t);
    CountsStep(s, a, a', t, x, ZeroedBy(s), ZeroedBy(After(s, t, c)));
  }

  lemma ZeroedHolder(s: Machine, t: Tid)
    requires t < |s.pc| && HashInv(s)
    ensures HoldsHash(s.ver, s.pc[t]) ==> ZeroedBy(s) == Zeroed(s.ver, s.pc[t])
    ensures s.ver.Two? ==> ZeroedBy(s).None?
    ensures s.pc[t].APublish? ==> ZeroedBy(s).None?
  {
  }

  // ---------- chains ----------

  lemma ChainUnlinkStep(s: Machine, a: Spec, t: Tid, x: Act)
    requires t < |s.pc| && Aligned(s, a) && ChainInv(s, a) && NodeInv(s, a) && Distinct(a.order)
    requires Local(s.ver, a, t, s.pc[t]) && Unlinks(x) && UnlinkTarget(s, a, s.pc[t], x)
    ensures forall r | r in Without(a.order, x.next.fp) :: r in a.ids - {x.next.fp}
    ensures Chains(Store(s, t, x.write).heap, Store(s, t, x.write).heads, Without(a.order, x.next.fp), a.ids - {x.next.fp})
  {
    if x.write.SetHead? {
      ChainsUnlinkHead(s, a, x.next.fp, x.write.b);
    } else {
      ChainsUnlinkInside(s, a, x.next.fp, x.write.r);
    }
  }

  lemma ChainStep(s: Machine, a: Spec, a': Spec, t: Tid, x: Act)
    requires t < |s.pc| && Aligned(s, a) && Known(a') && ChainInv(s, a) && NodeInv(s, a) && Distinct(a.order)
    requires PrivateInv(s, a) && FreshNode(s, s.pc[t]) && Local(s.ver, a, t, s.pc[t])
    requires Tracks(s, a, a', t, x) && Targets(s, a, t, x) && PrivateShift(s, t, x)
    ensures Chains(Store(s, t, x.write).heap, Store(s, t, x.write).heads, a'.order, a'.ids)
  {
    var priv := Privates(s);
    assert priv[t] == Private(s.pc[t]);
    if Publishes(s, t, x) {
      ChainsPublish(s, a, s.pc[t].fp, s.pc[t].id);
    } else if Unlinks(x) {
      ChainUnlinkStep(s, a, t, x);
    } else {
      ChainsKept(s, a, t, x.write);
    }
  }

  // ---------- the other threads ----------

  lemma GuardsExclusive(s: Machine, t: Tid, u: Tid, r: Ref)
    requires t < |s.pc| && u < |s.pc| && t != u && HashInv(s) && ObjLockInv(s)
    requires Guards(s.ver, s.pc[t], r)
    ensures !Guards(s.ver, s.pc[u], r)
  {
    var held := Held(s);
    assert held[t] == HoldsObj(s.ver, s.pc[t]) && held[u] == HoldsObj(s.ver, s.pc[u]);
  }

  /** A reference appears or disappears only under the lock of its object, or while it is published. */
  lemma TokensStep(s: Machine, a: Spec, t: Tid, u: Tid, x: Act, r: Ref)
    requires t < |s.pc| && u < |s.pc| && t != u && HashInv(s) && ObjLockInv(s) && PrivateInv(s, a) && LockedInv(s, a)
    requires Targets(s, a, t, x) && Guards(s.ver, s.pc[u], r)
    requires x.write.SetCount? ==> Guards(s.ver, s.pc[t], x.write.r)
    requires x.books.Add? ==> x.books.k !in a.ledger && (!Publishes(s, t, x) ==> x.write.SetCount? && x.write.r == x.books.loan.ref)
    requires x.books.Move? ==> x.books.k in a.ledger
    ensures Tokens(Post(a.ledger, x.books), r) == Tokens(a.ledger, r)
  {
    TokensPosted(a.ledger, x.books, r);
    if x.books.Add? && x.books.loan.ref == r {
      if Publishes(s, t, x) {
        PublishedUnguarded(s, a, t, u);
      } else {
        GuardsExclusive(s, t, u, r);
      }
    } else if x.books.Drop? && a.ledger[x.books.k].ref == r {
      if Unlinks(x) {
        assert Guards(s.ver, s.pc[t], r);
      }
      GuardsExclusive(s, t, u, r);
    } else if x.books.Drop? {
      assert x.books.k !in Tokens(a.ledger, r);
    }
  }

  lemma PublishedUnguarded(s: Machine, a: Spec, t: Tid, u: Tid)
    requires t < |s.pc| && u < |s.pc| && t != u && HashInv(s) && PrivateInv(s, a) && LockedInv(s, a)
    requires s.pc[t].APublish?
    ensures !Guards(s.ver, s.pc[u], s.pc[t].fp)
  {
    if s.ver.Two? && HoldsObj(s.ver, s.pc[u]).Some? {
      LockedNotPrivate(s, a, t, u);
    }
  }

  /** What another thread knows survives the line. */
  lemma {:induction false} LocalOther(s: Machine, a: Spec, a': Spec, t: Tid, u: Tid, x: Act)
    requires t < |s.pc| && u < |s.pc| && t != u && Aligned(s, a) && Known(a') && Local(s.ver, a, u, s.pc[u])
    requires Tracks(s, a, a', t, x) && Targets(s, a, t, x)
    requires HashInv(s) && ObjLockInv(s) && PrivateInv(s, a) && LockedInv(s, a)
    requires x.write.SetCount? ==> Guards(s.ver, s.pc[t], x.write.r)
    requires x.write.SetHead? || x.write.SetNext? ==> HoldsHash(s.ver, s.pc[t])
    requires x.books.Add? ==> x.books.k !in a.ledger && (!Publishes(s, t, x) ==> x.write.SetCount? && x.write.r == x.books.loan.ref)
    requires x.books.Move? ==> x.books.k in a.ledger && a.ledger[x.books.k].holder == t
    ensures u < |a'.status| && Local(s.ver, a', u, s.pc[u])
  {
    forall r | Guards(s.ver, s.pc[u], r) ensures Tokens(a'.ledger, r) == Tokens(a.ledger, r) {
      TokensStep(s, a, t, u, x, r);
    }
    assert HoldsHash(s.ver, s.pc[u]) ==> a'.order == a.order && a'.ids == a.ids;
    LocalFrame(s.ver, a, a', u, s.pc[u]);
  }

  /** Only the thread that steps moves on. */
  lemma {:induction false} LocalGathers(s: Machine, s': Machine, a': Spec, t: Tid, pc': Pc)
    requires t < |s.pc| && Known(a') && |s.pc| == |a'.status|
    requires s'.ver == s.ver && s'.pc == s.pc[t := pc'] && Local(s.ver, a', t, pc')
    requires forall u | 0 <= u < |s.pc| && u != t :: Local(s.ver, a', u, s.pc[u])
    ensures LocalInv(s', a')
  {
  }

  lemma {:induction false} PerformMoves(s: Machine, t: Tid, x: Act)
    requires t < |s.pc|
    ensures Perform(s, t, x).ver == s.ver && Perform(s, t, x).pc == s.pc[t := x.next]
  {
  }

  lemma {:induction false} LocalStep(s: Machine, a: Spec, a': Spec, t: Tid, x: Act)
    requires t < |s.pc| && Aligned(s, a) && LocalInv(s, a) && Known(a') && Tracks(s, a, a', t, x) && Targets(s, a, t, x)
    requires HashInv(s) && ObjLockInv(s) && PrivateInv(s, a) && LockedInv(s, a)
    requires Local(s.ver, a', t, x.next)
    requires x.write.SetCount? ==> Guards(s.ver, s.pc[t], x.write.r)
    requires x.write.SetHead? || x.write.SetNext? ==> HoldsHash(s.ver, s.pc[t])
    requires x.books.Add? ==> x.books.k !in a.ledger && (!Publishes(s, t, x) ==> x.write.SetCount? && x.write.r == x.books.loan.ref)
    requires x.books.Move? ==> x.books.k in a.ledger && a.ledger[x.books.k].holder == t
    ensures LocalInv(Perform(s, t, x), a')
  {
    forall u | 0 <= u < |s.pc| && u != t ensures Local(s.ver, a', u, s.pc[u]) {
      LocalOther(s, a, a', t, u, x);
    }
    var s' := Perform(s, t, x);
    PerformMoves(s, t, x);
    LocalGathers(s, s', a', t, x.next);
  }

  // ---------- the unlock-relock window ----------

  lemma SlowMoved(s: Machine, t: Tid, c: Choice)
    requires Fires(s, t, c) && Fits(s.ver, s.pc[t])
    ensures var pc, pc' := s.pc[t], Line(s, t, c).next;
      Slow(s.ver, pc').Some? ==>
        || Slow(s.ver, pc') == Slow(s.ver, pc)
        || (pc.RTest? && pc'.RDrop? && pc'.fp == pc.fp && pc'.k == pc.k)
  {
  }

  lemma SlowOwns(v: Version, a: Spec, u: Tid, pc: Pc)
    requires u < |a.status| && Known(a) && Local(v, a, u, pc) && Slow(v, pc).Some?
    ensures exists k :: Owns(a, u, k, Slow(v, pc).value)
  {
  }

  /** A thread that saw a count of 1 is alone with its reference, so no other one
      can be between its own sight of a 1 and its release. */
  lemma WindowStep(s: Machine, a: Spec, t: Tid, x: Act)
    requires t < |s.pc| && Aligned(s, a) && LocalInv(s, a) && WindowInv(s)
    requires Slow(s.ver, x.next).Some? ==>
      || Slow(s.ver, x.next) == Slow(s.ver, s.pc[t])
      || (s.pc[t].RTest? && x.next.RDrop? && x.next.fp == s.pc[t].fp && x.next.k == s.pc[t].k
          && Sole(a, x.next.k, x.next.fp) && Owns(a, t, x.next.k, x.next.fp))
    ensures WindowInv(Perform(s, t, x))
  {
    var s' := Perform(s, t, x);
    forall u, w | 0 <= u < w < |s.pc| && Slow(s'.ver, s'.pc[u]).Some?
      ensures Slow(s'.ver, s'.pc[u]) != Slow(s'.ver, s'.pc[w])
    {
      if (u == t || w == t) && Slow(s.ver, x.next).Some? && Slow(s.ver, x.next) != Slow(s.ver, s.pc[t]) {
        var o := if u == t then w else u;
        if Slow(s.ver, s.pc[o]).Some? {
          SlowOwns(s.ver, a, o, s.pc[o]);
          var k :| Owns(a, o, k, Slow(s.ver, s.pc[o]).value);
          assert k in Tokens(a.ledger, Slow(s.ver, s.pc[o]).value);
        }
      }
    }
  }

  // ---------- the whole invariant ----------

  lemma Prepared(s: Machine, a: Spec, t: Tid, c: Choice)
    requires Inv(s, a) && Fires(s, t, c)
    ensures Aligned(s, a) && Fits(s.ver, s.pc[t]) && Local(s.ver, a, t, s.pc[t]) && Distinct(a.order)
    ensures Readings(s, a, s.pc[t])
  {
    assert Local(s.ver, a, t, s.pc[t]);
    LocalFits(s.ver, a, t, s.pc[t]);
    ReadingsHold(s, a, t);
  }

  lemma OwnershipStep(s: Machine, a: Spec, a': Spec, t: Tid, c: Choice)
    requires Inv(s, a) && Fires(s, t, c) && Aligned(s, a) && Fits(s.ver, s.pc[t]) && Local(s.ver, a, t, s.pc[t])
    requires Tracks(s, a, a', t, Line(s, t, c)) && Targets(s, a, t, Line(s, t, c)) && Known(a')
    ensures var s' := After(s, t, c); HashInv(s') && ObjLockInv(s') && PrivateInv(s', a') && LockedInv(s', a')
  {
    HashStep(s, t, c);
    ObjLockStep(s, a, t, c);
    PrivateMoved(s, t, c);
    PrivateKept(s, a, a', t, Line(s, t, c));
    LockedStep(s, a, a', t, c);
  }

  lemma MemoryStep(s: Machine, a: Spec, a': Spec, t: Tid, c: Choice)
    requires Inv(s, a) && Fires(s, t, c) && Aligned(s, a) && Fits(s.ver, s.pc[t]) && Local(s.ver, a, t, s.pc[t])
    requires Tracks(s, a, a', t, Line(s, t, c)) && Targets(s, a, t, Line(s, t, c)) && Known(a') && HashInv(After(s, t, c))
    ensures var s' := After(s, t, c);
      FreshInv(s') && NodeInv(s', a') && |s'.heads| == NHASH && ChainInv(s', a')
  {
    FreshStep(s, a, t, c);
    assert FreshNode(s, s.pc[t]);
    NodeStep(s, a, a', t, c);
    PrivateMoved(s, t, c);
    ChainStep(s, a, a', t, Line(s, t, c));
  }

  lemma ThreadStep(s: Machine, a: Spec, a': Spec, t: Tid, c: Choice)
    requires Inv(s, a) && Fires(s, t, c) && Aligned(s, a) && Fits(s.ver, s.pc[t])
    requires Readings(s, a, s.pc[t])
    requires Tracks(s, a, a', t, Line(s, t, c)) && Targets(s, a, t, Line(s, t, c)) && Known(a')
    requires Local(s.ver, a', t, Line(s, t, c).next)
    ensures |s.pc| == |a'.status| && LocalInv(After(s, t, c), a') && WindowInv(After(s, t, c))
  {
    var x := Line(s, t, c);
    assert Local(s.ver, a, t, s.pc[t]);
    CountMoved(s, t, c);
    LocalStep(s, a, a', t, x);
    SlowMoved(s, t, c);
    if s.pc[t].RTest? && x.next.RDrop? {
      SlowEntry(s, a, t, c);
    }
    WindowStep(s, a, t, x);
  }

  lemma SlowEntry(s: Machine, a: Spec, t: Tid, c: Choice)
    requires Fires(s, t, c) && Aligned(s, a) && Local(s.ver, a, t, s.pc[t]) && Readings(s, a, s.pc[t])
    requires s.pc[t].RTest? && Line(s, t, c).next.RDrop?
    ensures var x := Line(s, t, c); Sole(a, x.next.k, x.next.fp) && Owns(a, t, x.next.k, x.next.fp)
  {
  }

  /** Every step is a step of the specification or none at all, and keeps the invariant. */
  lemma StepKeepsInv(s: Machine, a: Spec, t: Tid, c: Choice)
    requires Inv(s, a) && Fires(s, t, c)
    ensures SpecFires(a, LabelOf(s, t, c))
    ensures Inv(After(s, t, c), SpecAfter(a, LabelOf(s, t, c)))
  {
    Prepared(s, a, t, c);
    Simulates(s, a, t, c);
    var a' := SpecAfter(a, LabelOf(s, t, c));
    SpecKeepsInv(a, LabelOf(s, t, c));
    TargetsHold(s, a, t, c);
    OwnershipStep(s, a, a', t, c);
    MemoryStep(s, a, a', t, c);
    ThreadStep(s, a, a', t, c);
  }
}
