/** Every step of the table is a step of the atomic specification or none at
    all, and keeps the invariant. */
module FooSimulation {
  import opened Basics
  import opened FooSpec
  import opened FooChains
  import opened FooTable
  import opened FooInvariant

  lemma LocalFits(v: Version, a: Spec, t: Tid, pc: Pc)
    requires t < |a.status| && Known(a) && Local(v, a, t, pc)
    ensures Fits(v, pc)
  {
  }

  ghost predicate Aligned(s: Machine, a: Spec) {
    |s.heads| == NHASH && |s.pc| == |a.status| && s.ledger == a.ledger && Known(a)
  }

  /** How the specification state changes with a line of the program. */
  ghost predicate Tracks(s: Machine, a: Spec, a': Spec, t: Tid, x: Act)
    requires t < |s.pc|
  {
    && a'.ledger == Post(a.ledger, x.books)
    && |a'.status| == |a.status|
    && (forall u | 0 <= u < |a.status| && u != t :: a'.status[u] == a.status[u])
    && (if Publishes(s, t, x) then
          a'.order == [s.pc[t].fp] + a.order && a'.ids == a.ids[s.pc[t].fp := s.pc[t].id]
        else if Unlinks(x) then
          a'.order == Without(a.order, x.next.fp) && a'.ids == a.ids - {x.next.fp}
        else
          a'.order == a.order && a'.ids == a.ids)
  }

  lemma ScanEnds(a: Spec, id: int)
    requires Known(a) && Scanning(a, id, None)
    ensures Newest(a.order, a.ids, id).None?
  {
    NewestInBucket(a.order, a.ids, id);
  }

  /** A count above one means another reference is outstanding. */
  lemma CountTellsSole(s: Machine, a: Spec, t: Tid, k: Token, fp: Ref)
    requires Inv(s, a) && Owns(a, t, k, fp) && ZeroedBy(s) != Some(fp)
    ensures fp in s.heap
    ensures Sole(a, k, fp) <==> s.heap[fp].count == 1
  {
    var ks := Tokens(a.ledger, fp);
    assert k in ks;
    assert |ks - {k}| == |ks| - 1;
    if |ks| == 1 {
      assert ks - {k} == {};
      assert ks == {k};
    }
  }

  lemma NotZeroed(s: Machine, a: Spec, t: Tid)
    requires Inv(s, a) && t < |s.pc| && (s.ver.Two? || (HoldsHash(s.ver, s.pc[t]) && Zeroed(s.ver, s.pc[t]).None?))
    ensures ZeroedBy(s).None?
  {
  }

  lemma DropRemaining(a: Spec, t: Tid, k: Token, fp: Ref)
    requires Owns(a, t, k, fp)
    ensures Tokens(a.ledger - {k}, fp) == {} <==> Sole(a, k, fp)
  {
    TokensDrop(a.ledger, k, fp);
    assert k in Tokens(a.ledger, fp);
    if Tokens(a.ledger, fp) - {k} == {} {
      assert Tokens(a.ledger, fp) == {k};
    }
  }

  predicate InAlloc(pc: Pc) {
    pc.Idle? || pc.Return? || pc.AMalloc? || pc.ALockHash? || pc.ALink? || pc.APublish? || pc.ALockObj?
    || pc.AUnlockHash? || pc.AUnlockObj?
  }

  predicate InHold(pc: Pc) {
    pc.HLock? || pc.HInc? || pc.HUnlock? || pc.FLockHash? || pc.FUnlockObj? || pc.FUnlockHash?
  }

  predicate InFind(pc: Pc) {
    pc.FHead? || pc.FScan? || pc.FLockObj? || pc.FInc?
  }

  predicate InFast(pc: Pc) {
    pc.RLock? || pc.RTest? || pc.RDec? || pc.RUnlock? || pc.RDrop?
  }

  predicate InUnlink(pc: Pc) {
    pc.RHead? || pc.RWalk?
  }

  predicate InSlow(pc: Pc) {
    !InAlloc(pc) && !InHold(pc) && !InFind(pc) && !InFast(pc) && !InUnlink(pc)
  }

  /** What the memory a thread is about to read tells it. */
  ghost predicate Readings(s: Machine, a: Spec, pc: Pc)
    requires Aligned(s, a) && ValidAccess(s.ver, s.heap, pc)
  {
    match pc
    case APublish(_, fp) => fp !in a.order
    case FHead(id) => Scanning(a, id, s.heads[Hash(id)])
    case FScan(id, cur) => cur.Some? ==> (
      if s.heap[cur.value].id == id then cur.value in a.order && Newest(a.order, a.ids, id) == cur
      else Scanning(a, id, s.heap[cur.value].next))
    case RTest(fp, k) => Sole(a, k, fp) <==> s.heap[fp].count == 1
    case RRetest(fp, k) => Sole(a, k, fp) <==> s.heap[fp].count == 1
    case RHead(fp, k) => s.heads[Hash(s.heap[fp].id)] != Some(fp) ==> Walking(a, fp, s.heads[Hash(s.heap[fp].id)])
    case RWalk(fp, k, cur) => s.heap[cur.value].next != Some(fp) ==> Walking(a, fp, s.heap[cur.value].next)
    case _ => true
  }

  lemma TrackAlloc(s: Machine, a: Spec, t: Tid, c: Choice)
    requires Aligned(s, a) && Fires(s, t, c) && Local(s.ver, a, t, s.pc[t])
    requires Readings(s, a, s.pc[t]) && InAlloc(s.pc[t])
    ensures SpecFires(a, LabelOf(s, t, c))
    ensures Tracks(s, a, SpecAfter(a, LabelOf(s, t, c)), t, Line(s, t, c))
    ensures var x, a' := Line(s, t, c), SpecAfter(a, LabelOf(s, t, c)); Known(a') && Local(s.ver, a', t, x.next)
  {
  }

  lemma TrackHold(s: Machine, a: Spec, t: Tid, c: Choice)
    requires Aligned(s, a) && Fires(s, t, c) && Local(s.ver, a, t, s.pc[t])
    requires Readings(s, a, s.pc[t]) && InHold(s.pc[t])
    ensures SpecFires(a, LabelOf(s, t, c))
    ensures Tracks(s, a, SpecAfter(a, LabelOf(s, t, c)), t, Line(s, t, c))
    ensures var x, a' := Line(s, t, c), SpecAfter(a, LabelOf(s, t, c)); Known(a') && Local(s.ver, a', t, x.next)
  {
  }

  lemma TrackFind(s: Machine, a: Spec, t: Tid, c: Choice)
    requires Aligned(s, a) && Fires(s, t, c) && Local(s.ver, a, t, s.pc[t])
    requires Readings(s, a, s.pc[t]) && InFind(s.pc[t])
    ensures SpecFires(a, LabelOf(s, t, c))
    ensures Tracks(s, a, SpecAfter(a, LabelOf(s, t, c)), t, Line(s, t, c))
    ensures var x, a' := Line(s, t, c), SpecAfter(a, LabelOf(s, t, c)); Known(a') && Local(s.ver, a', t, x.next)
  {
    if s.pc[t].FScan? && s.pc[t].cur.None? {
      ScanEnds(a, s.pc[t].id);
    }
  }

  lemma TrackFastRelease(s: Machine, a: Spec, t: Tid, c: Choice)
    requires Aligned(s, a) && Fires(s, t, c) && Local(s.ver, a, t, s.pc[t])
    requires Readings(s, a, s.pc[t]) && InFast(s.pc[t])
    ensures SpecFires(a, LabelOf(s, t, c))
    ensures Tracks(s, a, SpecAfter(a, LabelOf(s, t, c)), t, Line(s, t, c))
    ensures var x, a' := Line(s, t, c), SpecAfter(a, LabelOf(s, t, c)); Known(a') && Local(s.ver, a', t, x.next)
  {
    if s.pc[t].RTest? || s.pc[t].RDec? {
      DropRemaining(a, t, s.pc[t].k, s.pc[t].fp);
    }
  }

  lemma TrackSlowRelease(s: Machine, a: Spec, t: Tid, c: Choice)
    requires Aligned(s, a) && Fires(s, t, c) && Local(s.ver, a, t, s.pc[t])
    requires Readings(s, a, s.pc[t]) && InSlow(s.pc[t])
    ensures SpecFires(a, LabelOf(s, t, c))
    ensures Tracks(s, a, SpecAfter(a, LabelOf(s, t, c)), t, Line(s, t, c))
    ensures var x, a' := Line(s, t, c), SpecAfter(a, LabelOf(s, t, c)); Known(a') && Local(s.ver, a', t, x.next)
  {
    if s.pc[t].RDecSlow? {
      DropRemaining(a, t, s.pc[t].k, s.pc[t].fp);
    }
  }

  lemma TrackUnlink(s: Machine, a: Spec, t: Tid, c: Choice)
    requires Aligned(s, a) && Distinct(a.order) && Fires(s, t, c) && Local(s.ver, a, t, s.pc[t])
    requires Readings(s, a, s.pc[t]) && InUnlink(s.pc[t])
    ensures SpecFires(a, LabelOf(s, t, c))
    ensures Tracks(s, a, SpecAfter(a, LabelOf(s, t, c)), t, Line(s, t, c))
    ensures var x, a' := Line(s, t, c), SpecAfter(a, LabelOf(s, t, c)); Known(a') && Local(s.ver, a', t, x.next)
  {
    DropRemaining(a, t, s.pc[t].k, s.pc[t].fp);
    WithoutMembers(a.order, s.pc[t].fp);
  }

  // ---------- what the chains tell a walking thread ----------

  lemma HeadFacts(s: Machine, a: Spec, id: int)
    requires Aligned(s, a) && ChainInv(s, a)
    ensures Scanning(a, id, s.heads[Hash(id)])
  {
    var cs := Bucket(a.order, a.ids, Hash(id));
    BucketMembers(a.order, a.ids, Hash(id));
    assert cs[0..] == cs;
    assert s.heads[Hash(id)] == LinkAfter(cs, 0);
  }

  lemma ScanFacts(s: Machine, a: Spec, id: int, cur: Ref)
    requires Aligned(s, a) && ChainInv(s, a) && NodeInv(s, a) && Scanning(a, id, Some(cur))
    ensures cur in a.order && cur in s.heap
    ensures if s.heap[cur].id == id then Newest(a.order, a.ids, id) == Some(cur)
            else Scanning(a, id, s.heap[cur].next)
  {
    var cs := Bucket(a.order, a.ids, Hash(id));
    BucketMembers(a.order, a.ids, Hash(id));
    NewestInBucket(a.order, a.ids, id);
    var i :| 0 <= i <= |cs| && Some(cur) == LinkAfter(cs, i) && Newest(cs, a.ids, id) == Newest(cs[i..], a.ids, id);
    assert cs[i] == cur && cs[i..][0] == cur;
    assert cs[i..][1..] == cs[i + 1..];
    assert Chain(s.heap, s.heads[Hash(id)], cs);
    assert s.heap[cur].next == LinkAfter(cs, i + 1);
  }

  lemma UnlinkFacts(s: Machine, a: Spec, fp: Ref)
    requires Aligned(s, a) && ChainInv(s, a) && NodeInv(s, a) && SpecInv(a) && fp in a.order
    ensures s.heads[Hash(s.heap[fp].id)] != Some(fp) ==> Walking(a, fp, s.heads[Hash(s.heap[fp].id)])
  {
    var b := Hash(a.ids[fp]);
    var cs := Bucket(a.order, a.ids, b);
    var j := BucketHas(a, fp);
    assert Chain(s.heap, s.heads[b], cs);
    assert s.heads[b] == LinkAfter(cs, 0) && cs[j] == fp;
  }

  lemma WalkFacts(s: Machine, a: Spec, fp: Ref, cur: Option<Ref>)
    requires Aligned(s, a) && ChainInv(s, a) && NodeInv(s, a) && Walking(a, fp, cur)
    ensures cur.Some? && cur.value in a.order && cur.value in s.heap
    ensures s.heap[cur.value].next != Some(fp) ==> Walking(a, fp, s.heap[cur.value].next)
  {
    var b := Hash(a.ids[fp]);
    var cs := Bucket(a.order, a.ids, b);
    BucketMembers(a.order, a.ids, b);
    var i, j :| 0 <= i < j < |cs| && cur == LinkAfter(cs, i) && cs[j] == fp;
    assert Chain(s.heap, s.heads[b], cs);
    assert cs[i] == cur.value && s.heap[cs[i]].next == LinkAfter(cs, i + 1);
  }

  lemma ReadingsHold(s: Machine, a: Spec, t: Tid)
    requires Inv(s, a) && t < |s.pc| && ValidAccess(s.ver, s.heap, s.pc[t])
    ensures Aligned(s, a) && Readings(s, a, s.pc[t])
  {
    var pc := s.pc[t];
    assert Local(s.ver, a, t, pc);
    match pc
    case APublish(_, fp) => assert Privates(s)[t] == Some(fp);
    case FHead(id) => HeadFacts(s, a, id);
    case FScan(id, cur) => if cur.Some? { ScanFacts(s, a, id, cur.value); }
    case RTest(fp, k) => NotZeroed(s, a, t); CountTellsSole(s, a, t, k, fp);
    case RRetest(fp, k) => NotZeroed(s, a, t); CountTellsSole(s, a, t, k, fp);
    case RHead(fp, k) => UnlinkFacts(s, a, fp);
    case RWalk(fp, k, cur) => WalkFacts(s, a, fp, cur);
    case _ =>
  }

  /** Each step matches the specification and re-establishes what its own thread knows. */
  lemma Simulates(s: Machine, a: Spec, t: Tid, c: Choice)
    requires Aligned(s, a) && Distinct(a.order) && Fires(s, t, c) && Local(s.ver, a, t, s.pc[t])
    requires Readings(s, a, s.pc[t])
    ensures SpecFires(a, LabelOf(s, t, c))
    ensures Tracks(s, a, SpecAfter(a, LabelOf(s, t, c)), t, Line(s, t, c))
    ensures var x, a' := Line(s, t, c), SpecAfter(a, LabelOf(s, t, c)); Known(a') && Local(s.ver, a', t, x.next)
  {
    if InAlloc(s.pc[t]) {
      TrackAlloc(s, a, t, c);
    } else if InHold(s.pc[t]) {
      TrackHold(s, a, t, c);
    } else if InFind(s.pc[t]) {
      TrackFind(s, a, t, c);
    } else if InFast(s.pc[t]) {
      TrackFastRelease(s, a, t, c);
    } else if InUnlink(s.pc[t]) {
      TrackUnlink(s, a, t, c);
    } else {
      TrackSlowRelease(s, a, t, c);
    }
  }

  // ---------- the other threads are not disturbed ----------

  lemma LocalFrame(v: Version, a: Spec, a': Spec, u: Tid, pc: Pc)
    requires u < |a.status| && u < |a'.status| && Known(a) && Known(a')
    requires Local(v, a, u, pc)
    requires a'.status[u] == a.status[u]
    requires HoldsHash(v, pc) ==> a'.order == a.order && a'.ids == a.ids
    requires forall k | k in a.ledger && a.ledger[k].holder == u :: k in a'.ledger && a'.ledger[k] == a.ledger[k]
    requires forall r | Guards(v, pc, r) :: Tokens(a'.ledger, r) == Tokens(a.ledger, r)
    ensures Local(v, a', u, pc)
  {
  }
}
