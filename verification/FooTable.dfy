/** The reference-counted hash table of `threads/mutex2.c` (two lock levels)
    and `threads/mutex3.c` (counts under `hashlock`), executed by any number of
    threads, one lock operation or one statement on shared data per step.

    `Two` is mutex2.c: `f_count` is protected by the object's own `f_lock`, and
    `foo_rele` unlocks, relocks and rechecks.  `One` is mutex3.c: `f_count` is
    protected by `hashlock`.  Both run on the same heap of chained objects. */
module FooTable {
  import opened Basics
  import opened FooSpec
  import opened FooChains

  datatype Version = Two | One

  /** The next action of a thread.  `Lock`/`Unlock` in the hold and release
      paths act on `f_lock` in version `Two` and on `hashlock` in version `One`. */
  datatype Pc =
    | Idle
    | AMalloc(id: int)
    | ALockHash(id: int, fp: Ref)
    | ALink(id: int, fp: Ref)
    | APublish(id: int, fp: Ref)
    | ALockObj(fp: Ref, k: Token)
    | AUnlockHash(fp: Ref, k: Token)
    | AUnlockObj(fp: Ref, k: Token)
    | HLock(fp: Ref, k: Token)
    | HInc(fp: Ref, k: Token)
    | HUnlock(fp: Ref)
    | FLockHash(id: int)
    | FHead(id: int)
    | FScan(id: int, cur: Option<Ref>)
    | FLockObj(id: int, fp: Ref)
    | FInc(id: int, fp: Ref)
    | FUnlockObj(fp: Ref)
    | FUnlockHash(res: Option<Ref>)
    | RLock(fp: Ref, k: Token)
    | RTest(fp: Ref, k: Token)
    | RDec(fp: Ref, k: Token)
    | RUnlock(fp: Ref)
    | RDrop(fp: Ref, k: Token)
    | RLockHash(fp: Ref, k: Token)
    | RRelock(fp: Ref, k: Token)
    | RRetest(fp: Ref, k: Token)
    | RDecSlow(fp: Ref, k: Token)
    | RUnlockObjSlow(fp: Ref)
    | RUnlockHashSlow
    | RHead(fp: Ref, k: Token)
    | RWalk(fp: Ref, k: Token, cur: Option<Ref>)
    | RUnlockHashLast(fp: Ref)
    | RUnlockObjLast(fp: Ref)
    | RFree(fp: Ref)
    | Return(res: Option<Ref>)

  datatype Machine = Machine(
    ver: Version,
    heap: map<Ref, Node>,
    heads: seq<Option<Ref>>,
    hash: Option<Tid>,
    pc: seq<Pc>,
    ledger: map<Token, Loan>)

  /** What the environment decides in one step: which call an idle thread makes,
      to whom it hands a reference, and what malloc returns. */
  datatype Choice =
    | Go(fail: bool, ref: Ref, tok: Token)
    | Invoke(op: Op)
    | HandOver(tok: Token, to: Tid)

  function Init(v: Version, n: nat): Machine {
    Machine(v, map[], seq(NHASH, i => None), None, seq(n, i => Idle), map[])
  }

  function SpecInit(n: nat): Spec {
    Spec([], map[], map[], seq(n, i => Ready))
  }

  // ---------- what a program counter says ----------

  predicate HoldsHash(v: Version, pc: Pc) {
    match pc
    case ALink(_, _) => true
    case APublish(_, _) => true
    case ALockObj(_, _) => true
    case AUnlockHash(_, _) => true
    case HInc(_, _) => v.One?
    case HUnlock(_) => v.One?
    case FHead(_) => true
    case FScan(_, _) => true
    case FLockObj(_, _) => true
    case FInc(_, _) => true
    case FUnlockObj(_) => true
    case FUnlockHash(_) => true
    case RTest(_, _) => v.One?
    case RUnlock(_) => v.One?
    case RRelock(_, _) => true
    case RRetest(_, _) => true
    case RDecSlow(_, _) => true
    case RUnlockObjSlow(_) => true
    case RUnlockHashSlow => true
    case RHead(_, _) => true
    case RWalk(_, _, _) => true
    case RUnlockHashLast(_) => true
    case _ => false
  }

  /** The object whose `f_lock` the thread holds. */
  function HoldsObj(v: Version, pc: Pc): Option<Ref> {
    match pc
    case AUnlockHash(fp, _) => Some(fp)
    case AUnlockObj(fp, _) => Some(fp)
    case _ =>
      if v.One? then None else
      match pc
      case HInc(fp, _) => Some(fp)
      case HUnlock(fp) => Some(fp)
      case FInc(_, fp) => Some(fp)
      case FUnlockObj(fp) => Some(fp)
      case RTest(fp, _) => Some(fp)
      case RDec(fp, _) => Some(fp)
      case RUnlock(fp) => Some(fp)
      case RDrop(fp, _) => Some(fp)
      case RRetest(fp, _) => Some(fp)
      case RDecSlow(fp, _) => Some(fp)
      case RUnlockObjSlow(fp) => Some(fp)
      case RHead(fp, _) => Some(fp)
      case RWalk(fp, _, _) => Some(fp)
      case RUnlockHashLast(fp) => Some(fp)
      case RUnlockObjLast(fp) => Some(fp)
      case _ => None
  }

  /** An allocated object that is not in the table: not yet linked, or unlinked
      and about to be freed. */
  function Private(pc: Pc): Option<Ref> {
    match pc
    case ALockHash(_, fp) => Some(fp)
    case ALink(_, fp) => Some(fp)
    case APublish(_, fp) => Some(fp)
    case RUnlockHashLast(fp) => Some(fp)
    case RUnlockObjLast(fp) => Some(fp)
    case RFree(fp) => Some(fp)
    case _ => None
  }

  /** mutex3.c only: the count has reached 0 and the object is still linked. */
  function Zeroed(v: Version, pc: Pc): Option<Ref> {
    if v.Two? then None else
    match pc
    case RHead(fp, _) => Some(fp)
    case RWalk(fp, _, _) => Some(fp)
    case _ => None
  }

  /** mutex2.c only: the thread saw a count of 1 and has not released yet; the
      unlock-relock window lies inside. */
  function Slow(v: Version, pc: Pc): Option<Ref> {
    if v.One? then None else
    match pc
    case RDrop(fp, _) => Some(fp)
    case RLockHash(fp, _) => Some(fp)
    case RRelock(fp, _) => Some(fp)
    case RRetest(fp, _) => Some(fp)
    case RDecSlow(fp, _) => Some(fp)
    case RHead(fp, _) => Some(fp)
    case RWalk(fp, _, _) => Some(fp)
    case _ => None
  }

  /** The thread holds the lock that protects the count of `r`. */
  predicate Guards(v: Version, pc: Pc, r: Ref) {
    if v.Two? then HoldsObj(v, pc) == Some(r) else HoldsHash(v, pc)
  }

  predicate WantsHash(v: Version, pc: Pc) {
    pc.ALockHash? || pc.FLockHash? || pc.RLockHash? || (v.One? && (pc.HLock? || pc.RLock?))
  }

  function WantsObj(v: Version, pc: Pc): Option<Ref> {
    match pc
    case ALockObj(fp, _) => Some(fp)
    case FLockObj(_, fp) => Some(fp)
    case RRelock(fp, _) => Some(fp)
    case HLock(fp, _) => if v.Two? then Some(fp) else None
    case RLock(fp, _) => if v.Two? then Some(fp) else None
    case _ => None
  }

  /** Every object whose fields the next action reads, writes, locks, unlocks or
      frees is allocated, and no pointer it follows is NULL. */
  predicate ValidAccess(v: Version, heap: map<Ref, Node>, pc: Pc) {
    match pc
    case ALink(_, fp) => fp in heap
    case ALockObj(fp, _) => fp in heap
    case AUnlockObj(fp, _) => fp in heap
    case HLock(fp, _) => v.Two? ==> fp in heap
    case HInc(fp, _) => fp in heap
    case HUnlock(fp) => v.Two? ==> fp in heap
    case FScan(_, cur) => cur.Some? ==> cur.value in heap
    case FLockObj(_, fp) => fp in heap
    case FInc(_, fp) => fp in heap
    case FUnlockObj(fp) => fp in heap
    case RLock(fp, _) => v.Two? ==> fp in heap
    case RTest(fp, _) => fp in heap
    case RDec(fp, _) => fp in heap
    case RUnlock(fp) => v.Two? ==> fp in heap
    case RDrop(fp, _) => fp in heap
    case RRelock(fp, _) => fp in heap
    case RRetest(fp, _) => fp in heap
    case RDecSlow(fp, _) => fp in heap
    case RUnlockObjSlow(fp) => fp in heap
    case RHead(fp, _) => fp in heap
    case RWalk(fp, _, cur) => fp in heap && cur.Some? && cur.value in heap
    case RUnlockObjLast(fp) => fp in heap
    case RFree(fp) => fp in heap
    case _ => true
  }

  // ---------- steps ----------

  /** What an action writes to shared memory. */
  datatype Write =
    | Nothing
    | LockHash
    | UnlockHash
    | LockObj(r: Ref)
    | UnlockObj(r: Ref)
    | NewNode(r: Ref, id: int)
    | SetNext(r: Ref, p: Option<Ref>)
    | SetHead(b: nat, p: Option<Ref>)
    | SetCount(r: Ref, n: int)
    | FreeNode(r: Ref)

  /** What happens to the references owned by clients. */
  datatype Books = Same | Add(k: Token, loan: Loan) | Drop(k: Token) | Move(k: Token, to: Tid)

  /** One line of the program: the write, the references gained or given up, and
      where the thread continues. */
  datatype Act = Act(write: Write, books: Books, next: Pc)

  predicate LocksFree(s: Machine, pc: Pc) {
    && (WantsHash(s.ver, pc) ==> s.hash.None?)
    && (WantsObj(s.ver, pc).Some? && WantsObj(s.ver, pc).value in s.heap
        ==> s.heap[WantsObj(s.ver, pc).value].lock.None?)
  }

  predicate ChoiceOk(s: Machine, t: Tid, c: Choice)
    requires t < |s.pc|
  {
    match s.pc[t]
    case Idle => (
      match c
      case Invoke(op) => MayCall(s.ledger, t, op)
      case HandOver(k, to) => k in s.ledger && s.ledger[k].holder == t && to < |s.pc|
      case Go(_, _, _) => false)
    case AMalloc(_) => c.Go? && (c.fail || c.ref !in s.heap)
    case APublish(_, _) => c.Go? && c.tok !in s.ledger
    case HInc(_, _) => c.Go? && c.tok !in s.ledger
    case FInc(_, _) => c.Go? && c.tok !in s.ledger
    case _ => c.Go?
  }

  /** The step is possible: the locks it needs are free and its memory is valid. */
  predicate Fires(s: Machine, t: Tid, c: Choice) {
    && t < |s.pc| && |s.heads| == NHASH
    && ChoiceOk(s, t, c)
    && ValidAccess(s.ver, s.heap, s.pc[t])
    && LocksFree(s, s.pc[t])
  }

  function Entry(s: Machine, op: Op): Pc
    requires op.Hold? || op.Rele? ==> op.tok in s.ledger
  {
    match op
    case Alloc(id) => AMalloc(id)
    case Hold(k) => HLock(s.ledger[k].ref, k)
    case Find(id) => FLockHash(id)
    case Rele(k) => RLock(s.ledger[k].ref, k)
  }

  /** The programs of both versions, line by line. */
  function Line(s: Machine, t: Tid, c: Choice): Act
    requires Fires(s, t, c)
  {
    var two := s.ver.Two?;
    match s.pc[t]
    case Idle =>
      if c.Invoke? then Act(Nothing, Same, Entry(s, c.op)) else Act(Nothing, Move(c.tok, c.to), Idle)
    // foo_alloc
    case AMalloc(id) =>
      if c.fail then Act(Nothing, Same, Return(None)) else Act(NewNode(c.ref, id), Same, ALockHash(id, c.ref))
    case ALockHash(id, fp) => Act(LockHash, Same, ALink(id, fp))
    case ALink(id, fp) => Act(SetNext(fp, s.heads[Hash(id)]), Same, APublish(id, fp))
    case APublish(id, fp) => Act(SetHead(Hash(id), Some(fp)), Add(c.tok, Loan(t, fp)), ALockObj(fp, c.tok))
    case ALockObj(fp, k) => Act(LockObj(fp), Same, AUnlockHash(fp, k))
    case AUnlockHash(fp, k) => Act(UnlockHash, Same, AUnlockObj(fp, k))
    case AUnlockObj(fp, _) => Act(UnlockObj(fp), Same, Return(Some(fp)))
    // foo_hold
    case HLock(fp, k) => Act(if two then LockObj(fp) else LockHash, Same, HInc(fp, k))
    case HInc(fp, k) => Act(SetCount(fp, s.heap[fp].count + 1), Add(c.tok, Loan(t, fp)), HUnlock(fp))
    case HUnlock(fp) => Act(if two then UnlockObj(fp) else UnlockHash, Same, Return(None))
    // foo_find
    case FLockHash(id) => Act(LockHash, Same, FHead(id))
    case FHead(id) => Act(Nothing, Same, FScan(id, s.heads[Hash(id)]))
    case FScan(id, cur) =>
      Act(Nothing, Same,
        if cur.None? then FUnlockHash(None)
        else if s.heap[cur.value].id == id then (if two then FLockObj(id, cur.value) else FInc(id, cur.value))
        else FScan(id, s.heap[cur.value].next))
    case FLockObj(id, fp) => Act(LockObj(fp), Same, FInc(id, fp))
    case FInc(id, fp) =>
      Act(SetCount(fp, s.heap[fp].count + 1), Add(c.tok, Loan(t, fp)),
          if two then FUnlockObj(fp) else FUnlockHash(Some(fp)))
    case FUnlockObj(fp) => Act(UnlockObj(fp), Same, FUnlockHash(Some(fp)))
    case FUnlockHash(res) => Act(UnlockHash, Same, Return(res))
    // foo_rele
    case RLock(fp, k) => Act(if two then LockObj(fp) else LockHash, Same, RTest(fp, k))
    case RTest(fp, k) =>
      var n := s.heap[fp].count;
      if two then Act(Nothing, Same, if n == 1 then RDrop(fp, k) else RDec(fp, k))
      else if n - 1 == 0 then Act(SetCount(fp, n - 1), Same, RHead(fp, k))
      else Act(SetCount(fp, n - 1), Drop(k), RUnlock(fp))
    case RDec(fp, k) => Act(SetCount(fp, s.heap[fp].count - 1), Drop(k), RUnlock(fp))
    case RUnlock(fp) => Act(if two then UnlockObj(fp) else UnlockHash, Same, Return(None))
    case RDrop(fp, k) => Act(UnlockObj(fp), Same, RLockHash(fp, k))
    case RLockHash(fp, k) => Act(LockHash, Same, RRelock(fp, k))
    case RRelock(fp, k) => Act(LockObj(fp), Same, RRetest(fp, k))
    case RRetest(fp, k) => Act(Nothing, Same, if s.heap[fp].count != 1 then RDecSlow(fp, k) else RHead(fp, k))
    case RDecSlow(fp, k) => Act(SetCount(fp, s.heap[fp].count - 1), Drop(k), RUnlockObjSlow(fp))
    case RUnlockObjSlow(fp) => Act(UnlockObj(fp), Same, RUnlockHashSlow)
    case RUnlockHashSlow => Act(UnlockHash, Same, Return(None))
    case RHead(fp, k) =>
      var b := Hash(s.heap[fp].id);
      if s.heads[b] == Some(fp) then Act(SetHead(b, s.heap[fp].next), Drop(k), RUnlockHashLast(fp))
      else Act(Nothing, Same, RWalk(fp, k, s.heads[b]))
    case RWalk(fp, k, cur) =>
      if s.heap[cur.value].next != Some(fp) then Act(Nothing, Same, RWalk(fp, k, s.heap[cur.value].next))
      else Act(SetNext(cur.value, s.heap[fp].next), Drop(k), RUnlockHashLast(fp))
    case RUnlockHashLast(fp) => Act(UnlockHash, Same, if two then RUnlockObjLast(fp) else RFree(fp))
    case RUnlockObjLast(fp) => Act(UnlockObj(fp), Same, RFree(fp))
    case RFree(fp) => Act(FreeNode(fp), Same, Return(None))
    case Return(res) => Act(Nothing, Same, Idle)
  }

  function Store(s: Machine, t: Tid, w: Write): (s': Machine) {
    match w
    case Nothing => s
    case LockHash => s.(hash := Some(t))
    case UnlockHash => s.(hash := None)
    case LockObj(r) => if r in s.heap then s.(heap := s.heap[r := s.heap[r].(lock := Some(t))]) else s
    case UnlockObj(r) => if r in s.heap then s.(heap := s.heap[r := s.heap[r].(lock := None)]) else s
    case NewNode(r, id) => s.(heap := s.heap[r := Node(1, id, None, None)])
    case SetNext(r, p) => if r in s.heap then s.(heap := s.heap[r := s.heap[r].(next := p)]) else s
    case SetHead(b, p) => if b < |s.heads| then s.(heads := s.heads[b := p]) else s
    case SetCount(r, n) => if r in s.heap then s.(heap := s.heap[r := s.heap[r].(count := n)]) else s
    case FreeNode(r) => s.(heap := s.heap - {r})
  }

  function Post(ledger: map<Token, Loan>, b: Books): map<Token, Loan> {
    match b
    case Same => ledger
    case Add(k, loan) => ledger[k := loan]
    case Drop(k) => ledger - {k}
    case Move(k, to) => if k in ledger then ledger[k := Loan(to, ledger[k].ref)] else ledger
  }

  function Perform(s: Machine, t: Tid, x: Act): Machine
    requires t < |s.pc|
  {
    Store(s, t, x.write).(ledger := Post(s.ledger, x.books), pc := s.pc[t := x.next])
  }

  function After(s: Machine, t: Tid, c: Choice): Machine
    requires Fires(s, t, c)
  {
    Perform(s, t, Line(s, t, c))
  }

  /** The action of the specification that a step stands for.  A call takes
      effect when it publishes, increments, decrements for good or unlinks, and
      an unsuccessful one when malloc fails or the scan reaches NULL. */
  function LabelOf(s: Machine, t: Tid, c: Choice): SpecLabel
    requires Fires(s, t, c)
  {
    match s.pc[t]
    case Idle => if c.Invoke? then Call(t, c.op) else Pass(t, c.tok, c.to)
    case AMalloc(_) => if c.fail then Commit(t, 0, 0, false) else Stutter
    case FScan(_, cur) => if cur.None? then Commit(t, 0, 0, false) else Stutter
    case Return(res) => Ret(t, res)
    case _ =>
      match Line(s, t, c).books
      case Add(k, loan) => Commit(t, loan.ref, k, true)
      case Drop(k) => Commit(t, 0, 0, true)
      case _ => Stutter
  }
}
