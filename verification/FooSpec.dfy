/** The atomic specification that both reference-counted tables of
    `threads/mutex2.c` and `threads/mutex3.c` implement.

    Every reference handed to a client is a `Token` in a ledger that records
    which thread owns it.  A call is a `Called` status, takes effect in one
    indivisible commit, and is then `Done` with the value it will return. */
module FooSpec {
  import opened Basics

  type Tid = nat
  type Ref = nat
  type Token = nat

  datatype Op = Alloc(id: int) | Hold(tok: Token) | Find(id: int) | Rele(tok: Token)

  datatype Status = Ready | Called(op: Op) | Done(res: Option<Ref>)

  datatype Loan = Loan(holder: Tid, ref: Ref)

  /** `order` lists the objects in the table, the most recently allocated first. */
  datatype Spec = Spec(order: seq<Ref>, ids: map<Ref, int>, ledger: map<Token, Loan>, status: seq<Status>)

  datatype SpecLabel =
    | Stutter
    | Call(t: Tid, op: Op)
    | Commit(t: Tid, ref: Ref, tok: Token, ok: bool)
    | Ret(t: Tid, res: Option<Ref>)
    | Pass(t: Tid, tok: Token, to: Tid)

  /** The outstanding references to one object. */
  function Tokens(ledger: map<Token, Loan>, r: Ref): set<Token> {
    set k | k in ledger && ledger[k].ref == r
  }

  /** The most recently allocated object of the table with the given id. */
  function Newest(order: seq<Ref>, ids: map<Ref, int>, id: int): (r: Option<Ref>)
    requires forall x | x in order :: x in ids
  {
    if order == [] then None
    else if ids[order[0]] == id then Some(order[0])
    else Newest(order[1..], ids, id)
  }

  function Without(order: seq<Ref>, r: Ref): (rest: seq<Ref>)
  {
    if order == [] then []
    else if order[0] == r then order[1..]
    else [order[0]] + Without(order[1..], r)
  }

  predicate Distinct(s: seq<Ref>) {
    forall i, j | 0 <= i < j < |s| :: s[i] != s[j]
  }

  predicate MayCall(ledger: map<Token, Loan>, t: Tid, op: Op) {
    match op
    case Hold(k) => k in ledger && ledger[k].holder == t
    case Rele(k) => k in ledger && ledger[k].holder == t
    case _ => true
  }

  predicate SpecFires(a: Spec, l: SpecLabel) {
    match l
    case Stutter => true
    case Call(t, op) => t < |a.status| && a.status[t].Ready? && MayCall(a.ledger, t, op)
    case Ret(t, res) => t < |a.status| && a.status[t] == Done(res)
    case Pass(t, k, to) =>
      && t < |a.status| && a.status[t].Ready? && to < |a.status|
      && k in a.ledger && a.ledger[k].holder == t
    case Commit(t, r, k, ok) =>
      && t < |a.status| && a.status[t].Called?
      && match a.status[t].op
         case Alloc(id) => ok ==> r !in a.order && k !in a.ledger
         case Hold(j) => j in a.ledger && k !in a.ledger
         case Find(id) =>
           (forall x | x in a.order :: x in a.ids) && (Newest(a.order, a.ids, id).Some? ==> k !in a.ledger)
         case Rele(j) => j in a.ledger
  }

  function SpecAfter(a: Spec, l: SpecLabel): Spec
    requires SpecFires(a, l)
  {
    match l
    case Stutter => a
    case Call(t, op) => a.(status := a.status[t := Called(op)])
    case Ret(t, res) => a.(status := a.status[t := Ready])
    case Pass(t, k, to) => a.(ledger := a.ledger[k := Loan(to, a.ledger[k].ref)])
    case Commit(t, r, k, ok) =>
      match a.status[t].op
      case Alloc(id) =>
        if ok then
          a.(order := [r] + a.order, ids := a.ids[r := id], ledger := a.ledger[k := Loan(t, r)],
             status := a.status[t := Done(Some(r))])
        else a.(status := a.status[t := Done(None)])
      case Hold(j) =>
        a.(ledger := a.ledger[k := Loan(t, a.ledger[j].ref)], status := a.status[t := Done(None)])
      case Find(id) =>
        var found := Newest(a.order, a.ids, id);
        if found.Some? then
          a.(ledger := a.ledger[k := Loan(t, found.value)], status := a.status[t := Done(found)])
        else a.(status := a.status[t := Done(None)])
      case Rele(j) =>
        var r := a.ledger[j].ref;
        var rest := a.ledger - {j};
        if Tokens(rest, r) == {} then
          a.(order := Without(a.order, r), ids := a.ids - {r}, ledger := rest,
             status := a.status[t := Done(None)])
        else a.(ledger := rest, status := a.status[t := Done(None)])
  }

  /** What every reachable state of the specification satisfies: an object is
      in the table exactly while some reference to it is outstanding. */
  ghost predicate SpecInv(a: Spec) {
    && Distinct(a.order)
    && (forall r :: r in a.ids <==> r in a.order)
    && (forall k | k in a.ledger :: a.ledger[k].ref in a.order && a.ledger[k].holder < |a.status|)
    && (forall r | r in a.order :: Tokens(a.ledger, r) != {})
  }

  // ---------- lemmas about the specification ----------

  lemma {:induction false} WithoutMembers(order: seq<Ref>, r: Ref)
    requires Distinct(order)
    ensures Distinct(Without(order, r))
    ensures forall x :: x in Without(order, r) <==> x in order && x != r
  {
    if order != [] {
      var head, tail := order[0], order[1..];
      assert order == [head] + tail;
      assert Distinct(tail);
      WithoutMembers(tail, r);
      if head == r {
        assert r !in tail;
      } else {
        var rest := Without(tail, r);
        assert Without(order, r) == [head] + rest;
        assert head !in tail;
      }
    }
  }

  lemma {:induction false} NewestMeaning(order: seq<Ref>, ids: map<Ref, int>, id: int)
    requires forall x | x in order :: x in ids
    ensures var found := Newest(order, ids, id);
      && (found.None? <==> forall x | x in order :: ids[x] != id)
      && (found.Some? ==> exists i | 0 <= i < |order| ::
            order[i] == found.value && ids[order[i]] == id && forall j | 0 <= j < i :: ids[order[j]] != id)
  {
    if order != [] {
      NewestMeaning(order[1..], ids, id);
      assert forall x :: x in order <==> x == order[0] || x in order[1..];
      var found := Newest(order, ids, id);
      if ids[order[0]] == id {
        assert order[0] == found.value;
      } else if found.Some? {
        var i :| 0 <= i < |order[1..]| && order[1..][i] == found.value && ids[order[1..][i]] == id
          && forall j | 0 <= j < i :: ids[order[1..][j]] != id;
        assert order[i + 1] == found.value;
        forall j | 0 <= j < i + 1 ensures ids[order[j]] != id {
          if j > 0 { assert order[j] == order[1..][j - 1]; }
        }
      }
    }
  }

  lemma TokensAdd(ledger: map<Token, Loan>, k: Token, loan: Loan, r: Ref)
    requires k !in ledger
    ensures Tokens(ledger[k := loan], r) == Tokens(ledger, r) + (if loan.ref == r then {k} else {})
    ensures |Tokens(ledger[k := loan], r)| == |Tokens(ledger, r)| + (if loan.ref == r then 1 else 0)
  {
    var l' := ledger[k := loan];
    assert k !in Tokens(ledger, r);
    assert Tokens(l', r) == Tokens(ledger, r) + (if loan.ref == r then {k} else {});
  }

  lemma TokensDrop(ledger: map<Token, Loan>, k: Token, r: Ref)
    requires k in ledger
    ensures Tokens(ledger - {k}, r) == Tokens(ledger, r) - {k}
    ensures |Tokens(ledger - {k}, r)| == |Tokens(ledger, r)| - (if ledger[k].ref == r then 1 else 0)
  {
    assert Tokens(ledger - {k}, r) == Tokens(ledger, r) - {k};
    if ledger[k].ref == r {
      assert k in Tokens(ledger, r);
    } else {
      assert k !in Tokens(ledger, r);
    }
  }

  lemma TokensPass(ledger: map<Token, Loan>, k: Token, to: Tid, r: Ref)
    requires k in ledger
    ensures Tokens(ledger[k := Loan(to, ledger[k].ref)], r) == Tokens(ledger, r)
  {
  }

  /** Adding a reference to an object of the table keeps the invariant. */
  lemma LoanKeepsInv(a: Spec, k: Token, loan: Loan, status: seq<Status>)
    requires SpecInv(a) && k !in a.ledger && loan.ref in a.order && loan.holder < |status| == |a.status|
    ensures SpecInv(a.(ledger := a.ledger[k := loan], status := status))
  {
    forall r | r in a.order ensures Tokens(a.ledger[k := loan], r) != {} {
      TokensAdd(a.ledger, k, loan, r);
    }
  }

  lemma AllocKeepsInv(a: Spec, r: Ref, id: int, k: Token, t: Tid, status: seq<Status>)
    requires SpecInv(a) && k !in a.ledger && r !in a.order && t < |status| == |a.status|
    ensures SpecInv(Spec([r] + a.order, a.ids[r := id], a.ledger[k := Loan(t, r)], status))
  {
    var order := [r] + a.order;
    assert order[0] == r && order[1..] == a.order;
    forall x | x in order ensures Tokens(a.ledger[k := Loan(t, r)], x) != {} {
      TokensAdd(a.ledger, k, Loan(t, r), x);
    }
  }

  /** Every step of the specification keeps `SpecInv`. */
  lemma SpecKeepsInv(a: Spec, l: SpecLabel)
    requires SpecInv(a) && SpecFires(a, l)
    ensures SpecInv(SpecAfter(a, l))
  {
    var a' := SpecAfter(a, l);
    if l.Pass? {
      forall r | r in a'.order ensures Tokens(a'.ledger, r) != {} {
        TokensPass(a.ledger, l.tok, l.to, r);
      }
    } else if l.Commit? {
      match a.status[l.t].op
      case Alloc(id) =>
        if l.ok { AllocKeepsInv(a, l.ref, id, l.tok, l.t, a'.status); }
      case Hold(j) =>
        LoanKeepsInv(a, l.tok, Loan(l.t, a.ledger[j].ref), a'.status);
      case Find(id) =>
        NewestMeaning(a.order, a.ids, id);
        if Newest(a.order, a.ids, id).Some? {
          LoanKeepsInv(a, l.tok, Loan(l.t, Newest(a.order, a.ids, id).value), a'.status);
        }
      case Rele(j) =>
        ReleaseKeepsInv(a, l);
    }
  }

  lemma ReleaseKeepsInv(a: Spec, l: SpecLabel)
    requires SpecInv(a) && SpecFires(a, l) && l.Commit? && a.status[l.t].op.Rele?
    ensures SpecInv(SpecAfter(a, l))
  {
    var j := a.status[l.t].op.tok;
    var status := SpecAfter(a, l).status;
    if Tokens(a.ledger - {j}, a.ledger[j].ref) == {} {
      LastDropKeepsInv(a, j, status);
    } else {
      DropKeepsInv(a, j, status);
    }
  }

  lemma DropKeepsInv(a: Spec, j: Token, status: seq<Status>)
    requires SpecInv(a) && j in a.ledger && |status| == |a.status|
    requires Tokens(a.ledger - {j}, a.ledger[j].ref) != {}
    ensures SpecInv(a.(ledger := a.ledger - {j}, status := status))
  {
    forall x | x in a.order ensures Tokens(a.ledger - {j}, x) != {} {
      TokensDrop(a.ledger, j, x);
    }
  }

  lemma LastDropKeepsInv(a: Spec, j: Token, status: seq<Status>)
    requires SpecInv(a) && j in a.ledger && |status| == |a.status|
    requires Tokens(a.ledger - {j}, a.ledger[j].ref) == {}
    ensures SpecInv(Spec(Without(a.order, a.ledger[j].ref), a.ids - {a.ledger[j].ref}, a.ledger - {j}, status))
  {
    var r, rest := a.ledger[j].ref, a.ledger - {j};
    WithoutMembers(a.order, r);
    forall k | k in rest ensures rest[k].ref in Without(a.order, r) {
      assert rest[k].ref == r ==> k in Tokens(rest, r);
    }
    forall x | x in Without(a.order, r) ensures Tokens(rest, x) != {} {
      TokensDrop(a.ledger, j, x);
    }
  }

  // ---------- what a call does and returns ----------

  /** The caller gets a new reference to `x`, and no other reference changes. */
  ghost predicate Gains(a: Spec, a': Spec, t: Tid, x: Ref) {
    exists k: Token :: k !in a.ledger && a'.ledger == a.ledger[k := Loan(t, x)]
  }

  ghost predicate SameTable(a: Spec, a': Spec) {
    a'.order == a.order && a'.ids == a.ids
  }

  /** `x` is in the table with the id, and every other such object is older. */
  ghost predicate YoungestWith(a: Spec, id: int, x: Ref) {
    exists i | 0 <= i < |a.order| :: a.order[i] == x && HasId(a, x, id) && forall j | 0 <= j < i :: !HasId(a, a.order[j], id)
  }

  ghost predicate HasId(a: Spec, x: Ref, id: int) {
    x in a.ids && a.ids[x] == id
  }

  ghost predicate Removed(order: seq<Ref>, order': seq<Ref>, x: Ref) {
    exists i | 0 <= i < |order| :: order[i] == x && order' == order[..i] + order[i + 1..]
  }

  /** What a call promises: `a` and `a'` are the table and the references before
      and after the moment it takes effect, `res` is what it returns. */
  ghost predicate Answers(op: Op, a: Spec, a': Spec, t: Tid, res: Option<Ref>) {
    match op
    case Alloc(id) =>
      if res.None? then SameTable(a, a') && a'.ledger == a.ledger
      else
        var x := res.value;
        && x !in a.order && Gains(a, a', t, x) && |Tokens(a'.ledger, x)| == 1
        && a'.order == [x] + a.order && a'.ids == a.ids[x := id]
    case Find(id) =>
      && SameTable(a, a')
      && (res.None? <==> forall x | x in a.order :: !HasId(a, x, id))
      && (if res.None? then a'.ledger == a.ledger else YoungestWith(a, id, res.value) && Gains(a, a', t, res.value))
    case Hold(j) =>
      res.None? && SameTable(a, a') && j in a.ledger && Gains(a, a', t, a.ledger[j].ref)
    case Rele(j) =>
      && res.None? && j in a.ledger && a'.ledger == a.ledger - {j}
      && var r := a.ledger[j].ref;
         if Tokens(a.ledger, r) == {j} then Removed(a.order, a'.order, r) && a'.ids == a.ids - {r} else SameTable(a, a')
  }

  lemma {:induction false} WithoutSplits(order: seq<Ref>, r: Ref) returns (i: nat)
    requires r in order
    ensures i < |order| && order[i] == r && Without(order, r) == order[..i] + order[i + 1..]
  {
    var head, tail := order[0], order[1..];
    if head == r {
      i := 0;
    } else {
      var k := WithoutSplits(tail, r);
      i := k + 1;
      assert order == [head] + tail;
      assert order[..i] == [head] + tail[..k] && order[i + 1..] == tail[k + 1..];
    }
  }

  lemma FindAnswers(a: Spec, l: SpecLabel)
    requires SpecInv(a) && SpecFires(a, l) && l.Commit? && a.status[l.t].op.Find?
    ensures var a' := SpecAfter(a, l); a'.status[l.t].Done? && Answers(a.status[l.t].op, a, a', l.t, a'.status[l.t].res)
  {
    var id := a.status[l.t].op.id;
    var found := Newest(a.order, a.ids, id);
    NewestMeaning(a.order, a.ids, id);
    if found.Some? {
      var i :| 0 <= i < |a.order| && a.order[i] == found.value && a.ids[a.order[i]] == id
        && forall j | 0 <= j < i :: a.ids[a.order[j]] != id;
      assert HasId(a, a.order[i], id) && forall j | 0 <= j < i :: !HasId(a, a.order[j], id);
      assert YoungestWith(a, id, found.value);
    }
  }

  lemma ReleaseAnswers(a: Spec, l: SpecLabel)
    requires SpecInv(a) && SpecFires(a, l) && l.Commit? && a.status[l.t].op.Rele?
    ensures var a' := SpecAfter(a, l); a'.status[l.t].Done? && Answers(a.status[l.t].op, a, a', l.t, a'.status[l.t].res)
  {
    var j := a.status[l.t].op.tok;
    var r := a.ledger[j].ref;
    TokensDrop(a.ledger, j, r);
    assert j in Tokens(a.ledger, r);
    assert Tokens(a.ledger - {j}, r) == {} <==> Tokens(a.ledger, r) == {j};
    var i := WithoutSplits(a.order, r);
    assert Removed(a.order, Without(a.order, r), r);
  }

  /** Every call does and returns what `Answers` says, and an allocation fails
      exactly when it gets no memory. */
  lemma CommitAnswers(a: Spec, l: SpecLabel)
    requires SpecInv(a) && SpecFires(a, l) && l.Commit?
    ensures var a' := SpecAfter(a, l);
      && a'.status[l.t].Done? && Answers(a.status[l.t].op, a, a', l.t, a'.status[l.t].res)
      && (a.status[l.t].op.Alloc? ==> (a'.status[l.t].res.None? <==> !l.ok))
  {
    match a.status[l.t].op
    case Alloc(id) =>
      if l.ok {
        TokensAdd(a.ledger, l.tok, Loan(l.t, l.ref), l.ref);
        assert Tokens(a.ledger, l.ref) == {};
      }
    case Hold(j) =>
    case Find(id) => FindAnswers(a, l);
    case Rele(j) => ReleaseAnswers(a, l);
  }
}
