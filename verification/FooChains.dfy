/** The hash chains of the table: how the global allocation order is spread
    over the buckets, and what linking and unlinking do to one chain. */
module FooChains {
  import opened Basics
  import opened FooSpec

  const NHASH: nat := 29

  /** `HASH(id)`: the int is widened to an unsigned 64-bit value first. */
  function Hash(id: int): (b: nat)
    ensures b < NHASH
  {
    (if id < 0 then id + 0x1_0000_0000_0000_0000 else id) % NHASH
  }

  /** One object: the fields of `struct foo`. */
  datatype Node = Node(count: int, id: int, next: Option<Ref>, lock: Option<Tid>)

  /** The objects of one bucket, in the order of the whole table. */
  function Bucket(order: seq<Ref>, ids: map<Ref, int>, b: nat): seq<Ref>
    requires forall x | x in order :: x in ids
  {
    if order == [] then []
    else
      var rest := Bucket(order[1..], ids, b);
      if Hash(ids[order[0]]) == b then [order[0]] + rest else rest
  }

  function LinkAfter(c: seq<Ref>, i: nat): Option<Ref> {
    if i < |c| then Some(c[i]) else None
  }

  /** `c` is what a walk from `head` along `next` visits before it meets NULL. */
  ghost predicate Chain(heap: map<Ref, Node>, head: Option<Ref>, c: seq<Ref>) {
    && head == LinkAfter(c, 0)
    && forall i | 0 <= i < |c| :: c[i] in heap && heap[c[i]].next == LinkAfter(c, i + 1)
  }

  lemma {:induction false} BucketMembers(order: seq<Ref>, ids: map<Ref, int>, b: nat)
    requires forall x | x in order :: x in ids
    ensures forall x :: x in Bucket(order, ids, b) <==> x in order && Hash(ids[x]) == b
    ensures Distinct(order) ==> Distinct(Bucket(order, ids, b))
  {
    if order != [] {
      var head, tail := order[0], order[1..];
      assert order == [head] + tail;
      BucketMembers(tail, ids, b);
      if Distinct(order) {
        assert Distinct(tail) && head !in tail;
      }
    }
  }

  /** A bucket depends only on the ids of the objects in it. */
  lemma {:induction false} BucketIds(order: seq<Ref>, ids: map<Ref, int>, ids': map<Ref, int>, b: nat)
    requires forall x | x in order :: x in ids && x in ids' && ids[x] == ids'[x]
    ensures Bucket(order, ids, b) == Bucket(order, ids', b)
  {
    if order != [] {
      BucketIds(order[1..], ids, ids', b);
    }
  }

  lemma {:induction false} BucketWithout(order: seq<Ref>, ids: map<Ref, int>, r: Ref, b: nat)
    requires forall x | x in order :: x in ids
    requires Distinct(order) && r in order
    ensures forall x | x in Without(order, r) :: x in ids
    ensures Bucket(Without(order, r), ids, b) == Without(Bucket(order, ids, b), r)
  {
    WithoutMembers(order, r);
    BucketMembers(order, ids, b);
    var head, tail := order[0], order[1..];
    assert order == [head] + tail;
    if head == r {
      BucketMembers(tail, ids, b);
      assert r !in tail;
      if Hash(ids[r]) == b {
        assert Bucket(order, ids, b)[1..] == Bucket(tail, ids, b);
      } else {
        WithoutAbsent(Bucket(tail, ids, b), r);
      }
    } else {
      WithoutMembers(tail, r);
      BucketWithout(tail, ids, r, b);
      var rest := Without(tail, r);
      assert Without(order, r) == [head] + rest && ([head] + rest)[1..] == rest;
      if Hash(ids[head]) == b {
        assert Bucket(order, ids, b)[1..] == Bucket(tail, ids, b);
      }
    }
  }

  lemma {:induction false} WithoutAbsent(c: seq<Ref>, r: Ref)
    requires r !in c
    ensures Without(c, r) == c
  {
    if c != [] {
      WithoutAbsent(c[1..], r);
    }
  }

  lemma {:induction false} WithoutAt(c: seq<Ref>, j: nat)
    requires Distinct(c) && j < |c|
    ensures Without(c, c[j]) == c[..j] + c[j + 1..]
  {
    if j > 0 {
      assert Distinct(c[1..]) && c[1..][j - 1] == c[j];
      WithoutAt(c[1..], j - 1);
      assert c[..j] + c[j + 1..] == [c[0]] + (c[1..][..j - 1] + c[1..][j..]);
    }
  }

  /** Looking only at the bucket of an id finds the newest object of the whole table. */
  lemma {:induction false} NewestInBucket(order: seq<Ref>, ids: map<Ref, int>, id: int)
    requires forall x | x in order :: x in ids
    ensures forall x | x in Bucket(order, ids, Hash(id)) :: x in ids
    ensures Newest(order, ids, id) == Newest(Bucket(order, ids, Hash(id)), ids, id)
  {
    BucketMembers(order, ids, Hash(id));
    if order != [] {
      NewestInBucket(order[1..], ids, id);
      if Hash(ids[order[0]]) == Hash(id) {
        assert Bucket(order, ids, Hash(id))[1..] == Bucket(order[1..], ids, Hash(id));
      }
    }
  }

  // ---------- one write on a chain ----------

  lemma ChainFrame(heap: map<Ref, Node>, heap': map<Ref, Node>, head: Option<Ref>, c: seq<Ref>)
    requires Chain(heap, head, c)
    requires forall x | x in c :: x in heap' && heap'[x].next == heap[x].next
    ensures Chain(heap', head, c)
  {
    forall i | 0 <= i < |c| ensures c[i] in heap' && heap'[c[i]].next == LinkAfter(c, i + 1) {
      assert c[i] in c;
    }
  }

  lemma ChainPush(heap: map<Ref, Node>, head: Option<Ref>, c: seq<Ref>, r: Ref)
    requires Chain(heap, head, c) && r in heap && heap[r].next == head
    ensures Chain(heap, Some(r), [r] + c)
  {
    var c' := [r] + c;
    forall i | 0 <= i < |c'| ensures c'[i] in heap && heap[c'[i]].next == LinkAfter(c', i + 1) {
      if i > 0 {
        assert c'[i] == c[i - 1];
      }
    }
  }

  lemma ChainPop(heap: map<Ref, Node>, head: Option<Ref>, c: seq<Ref>)
    requires Chain(heap, head, c) && c != []
    ensures Chain(heap, heap[c[0]].next, c[1..])
  {
    var c' := c[1..];
    forall i | 0 <= i < |c'| ensures c'[i] in heap && heap[c'[i]].next == LinkAfter(c', i + 1) {
      assert c'[i] == c[i + 1];
    }
  }

  lemma ChainUnlink(heap: map<Ref, Node>, head: Option<Ref>, c: seq<Ref>, j: nat)
    requires Chain(heap, head, c) && Distinct(c) && 0 < j < |c|
    ensures Chain(heap[c[j - 1] := heap[c[j - 1]].(next := heap[c[j]].next)], head, c[..j] + c[j + 1..])
  {
    var h' := heap[c[j - 1] := heap[c[j - 1]].(next := heap[c[j]].next)];
    var c' := c[..j] + c[j + 1..];
    forall i | 0 <= i < |c'| ensures c'[i] in h' && h'[c'[i]].next == LinkAfter(c', i + 1) {
      var o := if i < j then i else i + 1;
      assert c'[i] == c[o];
      assert i != j - 1 ==> c[o] != c[j - 1];
    }
  }
}
