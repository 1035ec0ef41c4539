/** The memory part of the invariant is kept by every step: locks, counts,
    chains, ownership of allocated objects and the unlock-relock window. */
module FooPreservation {
  import opened Basics
  import opened FooSpec
  import opened FooChains
  import opened FooTable
  import opened FooInvariant

  // ---------- reference counts ----------

  lemma CountMoved(s: Machine, t: Tid, c: Choice)
    requires Fires(s, t, c) && Fits(s.ver, s.pc[t])
    ensures var x, pc := Line(s, t, c), s.pc[t];
      && (x.write.SetCount? ==> x.write.r in s.heap && Guards(s.ver, pc, x.write.r))
      && (x.write.SetHead? || x.write.SetNext? ==> HoldsHash(s.ver, pc))
      && (match x.books
          case Same => x.write.SetCount? ==> x.write.n == s.heap[x.write.r].count - 1
          case Add(k, loan) =>
            && k !in s.ledger && loan.holder == t
            && (!Publishes(s, t, x) ==> x.write == SetCount(loan.ref, s.heap[loan.ref].count + 1))
            && (Publishes(s, t, x) ==> loan.ref == pc.fp)
          case Drop(k) => Unlinks(x) || (x.write.SetCount? && x.write.n == s.heap[x.write.r].count - 1)
          case Move(k, to) => k in s.ledger && s.ledger[k].holder == t && x.write.Nothing?)
  {
  }

  lemma ZeroedMoved(s: Machine, t: Tid, c: Choice)
    requires Fires(s, t, c) && Fits(s.ver, s.pc[t])
    ensures var x, pc := Line(s, t, c), s.pc[t];
      && Zeroed(s.ver, x.next) ==
           (if x.write.SetCount? && x.books.Same? then Some(x.write.r)
            else if Unlinks(x) then None else Zeroed(s.ver, pc))
      && (x.write.SetCount? ==> Zeroed(s.ver, pc).None?)
      && (x.write.SetCount? && x.books.Same? ==> s.ver.One?)
      && (x.write.LockHash? || x.write.UnlockHash? ==> Zeroed(s.ver, pc).None? && Zeroed(s.ver, x.next).None?)
  {
  }

  lemma ZeroedAfter(s: Machine, t: Tid, x: Act)
    requires t < |s.pc| && HashInv(s) && HashInv(Perform(s, t, x))
    requires x.write.SetCount? ==> Guards(s.ver, s.pc[t], x.write.r)
    requires Unlinks(x) ==> HoldsHash(s.ver, s.pc[t])
    requires Zeroed(s.ver, x.next) ==
      (if x.write.SetCount? && x.books.Same? then Some(x.write.r)
       else if Unlinks(x) then None else Zeroed(s.ver, s.pc[t]))
    requires x.write.SetCount? ==> Zeroed(s.ver, s.pc[t]).None?
    requires x.write.SetCount? && x.books.Same? ==> s.ver.One?
    requires x.write.LockHash? || x.write.UnlockHash? ==> Zeroed(s.ver, s.pc[t]).None? && Zeroed(s.ver, x.next).None?
    requires x.write.LockHash? ==> s.hash.None?
    requires x.write.UnlockHash? ==> s.hash == Some(t)
    ensures ZeroedBy(Perform(s, t, x)) ==
      (if x.write.SetCount? && x.books.Same? then Some(x.write.r) else if Unlinks(x) then None else ZeroedBy(s))
    ensures x.write.SetCount? ==> ZeroedBy(s).None?
  {
    if s.ver.Two? {
    } else if s.hash == Some(t) {
    } else {
    }
  }

  lemma TokensPosted(ledger: map<Token, Loan>, b: Books, r: Ref)
    requires b.Add? ==> b.k !in ledger
    requires b.Drop? || b.Move? ==> b.k in ledger
    ensures Tokens(Post(ledger, b), r) ==
      (match b
       case Same => Tokens(ledger, r)
       case Add(k, loan) => Tokens(ledger, r) + (if loan.ref == r then {k} else {})
       case Drop(k) => Tokens(ledger, r) - {k}
       case Move(k, to) => Tokens(ledger, r))
    ensures |Tokens(Post(ledger, b), r)| == |Tokens(ledger, r)|
      + (if b.Add? && b.loan.ref == r then 1 else if b.Drop? && ledger[b.k].ref == r then -1 else 0)
  {
    match b
    case Same =>
    case Add(k, loan) => TokensAdd(ledger, k, loan, r);
    case Drop(k) => TokensDrop(ledger, k, r);
    case Move(k, to) => TokensPass(ledger, k, to, r);
  }

  lemma CountsKept(s: Machine, a: Spec, t: Tid, w: Write, b: Books, z: Option<Ref>, z': Option<Ref>)
    requires Counts(s.heap, a.order, a.ids, a.ledger, z)
    requires b.Add? ==> b.k !in a.ledger
    requires b.Drop? || b.Move? ==> b.k in a.ledger
    requires w.NewNode? ==> w.r !in s.heap
    requires w.FreeNode? ==> w.r !in a.order
    requires w.SetCount? ==> w.r in s.heap && z.None?
    requires z' == if w.SetCount? && b.Same? then Some(w.r) else z
    requires match b
      case Same => w.SetCount? ==> w.n == s.heap[w.r].count - 1
      case Add(k, loan) => loan.ref in s.heap && w == SetCount(loan.ref, s.heap[loan.ref].count + 1)
      case Drop(k) => w.SetCount? && w.r == a.ledger[k].ref && w.n == s.heap[w.r].count - 1
      case Move(k, to) => w.Nothing?
    ensures Counts(Store(s, t, w).heap, a.order, a.ids, Post(a.ledger, b), z')
  {
    forall r | r in a.order
      ensures Store(s, t, w).heap[r].count + (if z' == Some(r) then 1 else 0) == |Tokens(Post(a.ledger, b), r)|
    {
      TokensPosted(a.ledger, b, r);
    }
  }

  lemma CountsPublish(s: Machine, a: Spec, k: Token, loan: Loan, id: int, z: Option<Ref>)
    requires Counts(s.heap, a.order, a.ids, a.ledger, z) && z != Some(loan.ref)
    requires k !in a.ledger && loan.ref !in a.order && Tokens(a.ledger, loan.ref) == {}
    requires loan.ref in s.heap && s.heap[loan.ref].id == id && s.heap[loan.ref].count == 1
    ensures Counts(s.heap, [loan.ref] + a.order, a.ids[loan.ref := id], a.ledger[k := loan], z)
  {
    forall r | r in [loan.ref] + a.order
      ensures s.heap[r].count + (if z == Some(r) then 1 else 0) == |Tokens(a.ledger[k := loan], r)|
    {
      TokensAdd(a.ledger, k, loan, r);
    }
  }

  lemma CountsUnlink(s: Machine, a: Spec, t: Tid, w: Write, k: Token, fp: Ref, z: Option<Ref>)
    requires Counts(s.heap, a.order, a.ids, a.ledger, z) && Distinct(a.order)
    requires k in a.ledger && a.ledger[k].ref == fp && (z.None? || z == Some(fp))
    requires w.SetHead? || w.SetNext?
    ensures Counts(Store(s, t, w).heap, Without(a.order, fp), a.ids - {fp}, a.ledger - {k}, None)
  {
    WithoutMembers(a.order, fp);
    forall r | r in Without(a.order, fp)
      ensures s.heap[r].count == |Tokens(a.ledger - {k}, r)|
    {
      TokensDrop(a.ledger, k, r);
    }
  }

  // ---------- chains ----------

  ghost predicate Chains(heap: map<Ref, Node>, heads: seq<Option<Ref>>, order: seq<Ref>, ids: map<Ref, int>)
    requires |heads| == NHASH && forall x | x in order :: x in ids
  {
    forall b: nat | b < NHASH :: Chain(heap, heads[b], Bucket(order, ids, b))
  }

  lemma ChainsKept(s: Machine, a: Spec, t: Tid, w: Write)
    requires |s.heads| == NHASH && Known(a) && ChainInv(s, a)
    requires forall r | r in a.order :: r in s.heap
    requires w.SetNext? ==> w.r !in a.order
    requires w.FreeNode? ==> w.r !in a.order
    requires w.NewNode? ==> w.r !in s.heap
    requires !w.SetHead?
    ensures Chains(Store(s, t, w).heap, Store(s, t, w).heads, a.order, a.ids)
  {
    forall b: nat | b < NHASH ensures Chain(Store(s, t, w).heap, s.heads[b], Bucket(a.order, a.ids, b)) {
      BucketMembers(a.order, a.ids, b);
      ChainFrame(s.heap, Store(s, t, w).heap, s.heads[b], Bucket(a.order, a.ids, b));
    }
  }

  lemma ChainsPublish(s: Machine, a: Spec, fp: Ref, id: int)
    requires |s.heads| == NHASH && Known(a) && ChainInv(s, a)
    requires fp !in a.order && fp in s.heap && s.heap[fp].next == s.heads[Hash(id)]
    ensures Chains(s.heap, s.heads[Hash(id) := Some(fp)], [fp] + a.order, a.ids[fp := id])
  {
    var order', ids' := [fp] + a.order, a.ids[fp := id];
    assert order'[1..] == a.order;
    forall b: nat | b < NHASH ensures Chain(s.heap, s.heads[Hash(id) := Some(fp)][b], Bucket(order', ids', b)) {
      BucketIds(a.order, a.ids, ids', b);
      assert Chain(s.heap, s.heads[b], Bucket(a.order, a.ids, b));
      if b == Hash(id) {
        ChainPush(s.heap, s.heads[b], Bucket(a.order, a.ids, b), fp);
      }
    }
  }

  lemma BucketsWithout(a: Spec, fp: Ref, b: nat)
    requires Known(a) && Distinct(a.order) && fp in a.order
    ensures forall x | x in Without(a.order, fp) :: x in a.ids - {fp}
    ensures Bucket(Without(a.order, fp), a.ids - {fp}, b) ==
      (if b == Hash(a.ids[fp]) then Without(Bucket(a.order, a.ids, b), fp) else Bucket(a.order, a.ids, b))
  {
    WithoutMembers(a.order, fp);
    BucketWithout(a.order, a.ids, fp, b);
    BucketIds(Without(a.order, fp), a.ids, a.ids - {fp}, b);
    BucketMembers(a.order, a.ids, b);
    if b != Hash(a.ids[fp]) {
      WithoutAbsent(Bucket(a.order, a.ids, b), fp);
    }
  }

  lemma ChainsUnlinkHead(s: Machine, a: Spec, fp: Ref, b: nat)
    requires |s.heads| == NHASH && Known(a) && ChainInv(s, a) && Distinct(a.order)
    requires fp in a.order && fp in s.heap && b == Hash(a.ids[fp]) && s.heads[b] == Some(fp)
    ensures forall x | x in Without(a.order, fp) :: x in a.ids - {fp}
    ensures Chains(s.heap, s.heads[b := s.heap[fp].next], Without(a.order, fp), a.ids - {fp})
  {
    BucketsWithout(a, fp, b);
    forall i: nat | i < NHASH
      ensures Chain(s.heap, s.heads[b := s.heap[fp].next][i], Bucket(Without(a.order, fp), a.ids - {fp}, i))
    {
      BucketsWithout(a, fp, i);
      var c := Bucket(a.order, a.ids, i);
      assert Chain(s.heap, s.heads[i], c);
      if i == b {
        assert c[0] == fp;
        ChainPop(s.heap, s.heads[i], c);
        assert Without(c, fp) == c[1..];
      }
    }
  }

  lemma ChainsUnlinkInside(s: Machine, a: Spec, fp: Ref, p: Ref)
    requires |s.heads| == NHASH && Known(a) && ChainInv(s, a) && Distinct(a.order)
    requires fp in a.order && fp in s.heap && p in s.heap && s.heap[p].next == Some(fp)
    requires Walking(a, fp, Some(p))
    ensures forall x | x in Without(a.order, fp) :: x in a.ids - {fp}
    ensures Chains(s.heap[p := s.heap[p].(next := s.heap[fp].next)], s.heads, Without(a.order, fp), a.ids - {fp})
  {
    var b := Hash(a.ids[fp]);
    var heap' := s.heap[p := s.heap[p].(next := s.heap[fp].next)];
    BucketsWithout(a, fp, b);
    BucketMembers(a.order, a.ids, b);
    var cb := Bucket(a.order, a.ids, b);
    var i, j :| 0 <= i < j < |cb| && Some(p) == LinkAfter(cb, i) && cb[j] == fp;
    assert Chain(s.heap, s.heads[b], cb) && cb[i] == p;
    assert LinkAfter(cb, i + 1) == Some(fp);
    assert j == i + 1;
    forall n: nat | n < NHASH
      ensures Chain(heap', s.heads[n], Bucket(Without(a.order, fp), a.ids - {fp}, n))
    {
      BucketsWithout(a, fp, n);
      var c := Bucket(a.order, a.ids, n);
      assert Chain(s.heap, s.heads[n], c);
      if n == b {
        ChainUnlink(s.heap, s.heads[n], c, j);
        WithoutAt(c, j);
      } else {
        BucketMembers(a.order, a.ids, n);
        assert p !in c;
        ChainFrame(s.heap, heap', s.heads[n], c);
      }
    }
  }
}
