/** The per-order locks of controller/topup.go as a state machine: any number of threads,
    each between any two atomic operations of LockOrder, UnlockOrder and the two
    payment handlers that run between them. */
module OrderLocks {
  import opened Options

  type Thread = nat
  type Order = string
  type Ref = nat
  type User = nat

  datatype Provider = Epay | Stripe | OtherProvider
  datatype Status = Pending | Success | Failed | OtherStatus

  datatype Row = Row(provider: Provider, status: Status, amount: int, user: User, payMethod: string)

  /** EpayNotify with the payment type it was notified of, or sessionAsyncPaymentFailed. */
  datatype Job = EpayNotify(payType: string) | StripeFailed

  datatype Stage = Reading | HasRow(seen: Option<Row>) | Written(row: Row)

  /** Where a thread stands: the next atomic operation it will do. */
  datatype PC =
    | Idle
    | LockCreate(o: Order, job: Job)              // createLock.Lock
    | LockLoad(o: Order, job: Job)                // orderLocks.Load, or a new entry stored
    | LockCount(o: Order, job: Job, m: Ref)       // refCount++
    | LockRelease(o: Order, job: Job, m: Ref)     // createLock.Unlock
    | LockWait(o: Order, job: Job, m: Ref)        // mu.Lock
    | Body(o: Order, job: Job, m: Ref, stage: Stage)
    | UnlockLoad(o: Order, m: Ref)                // orderLocks.Load; m is what this thread locked
    | UnlockMu(o: Order, m: Ref, found: Ref)      // mu.Unlock of what was found
    | UnlockCreate(o: Order, m: Ref)              // createLock.Lock
    | UnlockCount(o: Order, m: Ref)               // refCount--
    | UnlockDelete(o: Order, m: Ref)              // delete if zero
    | UnlockRelease(o: Order)                     // createLock.Unlock

  /** A refCountedMutex; `order` records which entry it was made for. */
  datatype Rcm = Rcm(locked: bool, refCount: int, order: Order)

  datatype Event = Left(o: Order, status: Status) | Credited(o: Order, user: User, quota: int)

  datatype State = State(
    create: Option<Thread>,
    table: map<Order, Ref>,
    mutexes: map<Ref, Rcm>,
    pc: map<Thread, PC>,
    db: map<Order, Row>,
    log: seq<Event>)

  /** One step: a thread runs its next operation (with what is free to vary: the work an
      idle thread takes up, the address of a new mutex, whether the database write
      succeeds), or a new pending order is inserted. */
  datatype Action =
    | Run(t: Thread, o: Order, job: Job, spare: Ref, ok: bool)
    | Insert(o: Order, row: Row)

  // ----- the program; `worth` is what an order's amount is credited as

  function Go(s: State, t: Thread, p: PC): State { s.(pc := s.pc[t := p]) }

  predicate Enabled(s: State, a: Action) {
    match a
    case Insert(o, row) => o !in s.db && row.status == Pending
    case Run(t, o, job, spare, ok) =>
      t in s.pc &&
      match s.pc[t]
      case LockCreate(_, _) => s.create.None?
      case LockLoad(o', _) => o' in s.table || spare !in s.mutexes
      case LockCount(_, _, m) => m in s.mutexes
      case LockWait(_, _, m) => m in s.mutexes && !s.mutexes[m].locked
      case UnlockMu(_, _, found) => found in s.mutexes
      case UnlockCreate(_, _) => s.create.None?
      case UnlockCount(_, m) => m in s.mutexes
      case UnlockDelete(_, m) => m in s.mutexes
      case _ => true
  }

  /** The handler between lock and unlock, one database operation at a time. */
  function BodyStep(s: State, t: Thread, o: Order, job: Job, m: Ref, stage: Stage, ok: bool, worth: int -> int): State {
    match stage
    case Reading => Go(s, t, Body(o, job, m, HasRow(if o in s.db then Some(s.db[o]) else None)))
    case HasRow(None) => Go(s, t, UnlockLoad(o, m))
    case HasRow(Some(row)) =>
      if row.provider != (if job.EpayNotify? then Epay else Stripe) || row.status != Pending || !ok then
        Go(s, t, UnlockLoad(o, m))
      else if job.EpayNotify? then
        var row' := row.(status := Success, payMethod := job.payType);
        Go(s, t, Body(o, job, m, Written(row'))).(db := s.db[o := row'], log := s.log + [Left(o, Success)])
      else
        Go(s, t, UnlockLoad(o, m)).(db := s.db[o := row.(status := Failed)], log := s.log + [Left(o, Failed)])
    case Written(row) =>
      if ok then Go(s, t, UnlockLoad(o, m)).(log := s.log + [Credited(o, row.user, worth(row.amount))])
      else Go(s, t, UnlockLoad(o, m))
  }

  function After(s: State, a: Action, worth: int -> int): State
    requires Enabled(s, a)
  {
    match a
    case Insert(o, row) => s.(db := s.db[o := row])
    case Run(t, newOrder, newJob, spare, ok) =>
      match s.pc[t]
      case Idle => Go(s, t, LockCreate(newOrder, newJob))
      case LockCreate(o, job) => Go(s, t, LockLoad(o, job)).(create := Some(t))
      case LockLoad(o, job) =>
        if o in s.table then Go(s, t, LockCount(o, job, s.table[o]))
        else Go(s, t, LockCount(o, job, spare)).(
               table := s.table[o := spare], mutexes := s.mutexes[spare := Rcm(false, 0, o)])
      case LockCount(o, job, m) =>
        Go(s, t, LockRelease(o, job, m)).(mutexes := s.mutexes[m := s.mutexes[m].(refCount := s.mutexes[m].refCount + 1)])
      case LockRelease(o, job, m) => Go(s, t, LockWait(o, job, m)).(create := None)
      case LockWait(o, job, m) =>
        Go(s, t, Body(o, job, m, Reading)).(mutexes := s.mutexes[m := s.mutexes[m].(locked := true)])
      case Body(o, job, m, stage) => BodyStep(s, t, o, job, m, stage, ok, worth)
      case UnlockLoad(o, m) =>
        if o in s.table then Go(s, t, UnlockMu(o, m, s.table[o])) else Go(s, t, Idle)
      case UnlockMu(o, m, found) =>
        Go(s, t, UnlockCreate(o, found)).(mutexes := s.mutexes[found := s.mutexes[found].(locked := false)])
      case UnlockCreate(o, m) => Go(s, t, UnlockCount(o, m)).(create := Some(t))
      case UnlockCount(o, m) =>
        Go(s, t, UnlockDelete(o, m)).(mutexes := s.mutexes[m := s.mutexes[m].(refCount := s.mutexes[m].refCount - 1)])
      case UnlockDelete(o, m) =>
        if s.mutexes[m].refCount == 0 then Go(s, t, UnlockRelease(o)).(table := s.table - {o})
        else Go(s, t, UnlockRelease(o))
      case UnlockRelease(o) => Go(s, t, Idle).(create := None)
  }

  predicate Init(s: State) {
    && s.create.None? && s.table == map[] && s.mutexes == map[] && s.log == []
    && (forall t | t in s.pc :: s.pc[t] == Idle)
  }

  // ----- what a thread's place says about the locks

  predicate InCreate(p: PC) {
    p.LockLoad? || p.LockCount? || p.LockRelease? || p.UnlockCount? || p.UnlockDelete? || p.UnlockRelease?
  }

  /** The mutex whose reference count includes this thread. */
  function Counted(p: PC): Option<Ref> {
    match p
    case LockRelease(_, _, m) => Some(m)
    case LockWait(_, _, m) => Some(m)
    case Body(_, _, m, _) => Some(m)
    case UnlockLoad(_, m) => Some(m)
    case UnlockMu(_, m, _) => Some(m)
    case UnlockCreate(_, m) => Some(m)
    case UnlockCount(_, m) => Some(m)
    case _ => None
  }

  /** The mutex this thread has locked. */
  function Holding(p: PC): Option<Ref> {
    match p
    case Body(_, _, m, _) => Some(m)
    case UnlockLoad(_, m) => Some(m)
    case UnlockMu(_, m, _) => Some(m)
    case _ => None
  }

  /** The mutex this thread relies on finding in the table. */
  function Needs(p: PC): Option<Ref> {
    match p
    case LockCount(_, _, m) => Some(m)
    case UnlockDelete(_, m) => Some(m)
    case _ => Counted(p)
  }

  function OrderOf(p: PC): Order {
    match p
    case Idle => ""
    case LockCreate(o, _) => o
    case LockLoad(o, _) => o
    case LockCount(o, _, _) => o
    case LockRelease(o, _, _) => o
    case LockWait(o, _, _) => o
    case Body(o, _, _, _) => o
    case UnlockLoad(o, _) => o
    case UnlockMu(o, _, _) => o
    case UnlockCreate(o, _) => o
    case UnlockCount(o, _) => o
    case UnlockDelete(o, _) => o
    case UnlockRelease(o) => o
  }

  ghost function Users(pc: map<Thread, PC>, m: Ref): set<Thread> {
    set t | t in pc && Counted(pc[t]) == Some(m)
  }

  // ----- the invariant

  ghost predicate CreateOk(s: State) {
    && (s.create.Some? ==> s.create.value in s.pc)
    && (forall t | t in s.pc :: InCreate(s.pc[t]) <==> s.create == Some(t))
  }

  ghost predicate CountsOk(s: State) {
    forall m | m in s.mutexes :: s.mutexes[m].refCount == |Users(s.pc, m)|
  }

  ghost predicate NeedsOk(s: State) {
    forall t | t in s.pc && Needs(s.pc[t]).Some? ::
      var o := OrderOf(s.pc[t]);
      o in s.table && s.table[o] == Needs(s.pc[t]).value && s.table[o] in s.mutexes
  }

  ghost predicate TableOk(s: State) {
    forall o | o in s.table ::
      && s.table[o] in s.mutexes && s.mutexes[s.table[o]].order == o
      && (s.mutexes[s.table[o]].refCount > 0 ||
          (s.create.Some? && s.create.value in s.pc && Needs(s.pc[s.create.value]) == Some(s.table[o])))
  }

  ghost predicate HoldOk(s: State) {
    && (forall t | t in s.pc && Holding(s.pc[t]).Some? ::
          Holding(s.pc[t]).value in s.mutexes && s.mutexes[Holding(s.pc[t]).value].locked)
    && (forall t, u | t in s.pc && u in s.pc && Holding(s.pc[t]).Some? && Holding(s.pc[t]) == Holding(s.pc[u]) :: t == u)
    && (forall m | m in s.mutexes && s.mutexes[m].locked :: exists t :: t in s.pc && Holding(s.pc[t]) == Some(m))
  }

  ghost predicate FoundOk(s: State) {
    forall t | t in s.pc && s.pc[t].UnlockMu? :: s.pc[t].found == s.pc[t].m
  }

  ghost predicate LockInv(s: State) {
    CreateOk(s) && CountsOk(s) && NeedsOk(s) && TableOk(s) && HoldOk(s) && FoundOk(s)
  }

  // ----- every step keeps it

  lemma UsersSame(pc: map<Thread, PC>, t: Thread, p: PC, m: Ref)
    requires t in pc && (Counted(pc[t]) == Some(m) <==> Counted(p) == Some(m))
    ensures Users(pc[t := p], m) == Users(pc, m)
  {
    hide Counted;
  }

  lemma UsersJoin(pc: map<Thread, PC>, t: Thread, p: PC, m: Ref)
    requires t in pc && Counted(pc[t]) != Some(m) && Counted(p) == Some(m)
    ensures |Users(pc[t := p], m)| == |Users(pc, m)| + 1
  {
    hide Counted;
    assert Users(pc[t := p], m) == Users(pc, m) + {t};
  }

  lemma UsersLeave(pc: map<Thread, PC>, t: Thread, p: PC, m: Ref)
    requires t in pc && Counted(pc[t]) == Some(m) && Counted(p) != Some(m)
    ensures |Users(pc[t := p], m)| == |Users(pc, m)| - 1
  {
    hide Counted;
    assert Users(pc, m) == Users(pc[t := p], m) + {t};
  }

  /** Users of a mutex just made: nobody. */
  lemma NoUsers(s: State, m: Ref)
    requires NeedsOk(s) && m !in s.mutexes
    ensures Users(s.pc, m) == {}
  {
  }

  /** A thread moves on without touching the locks, and its claims on them stay the same. */
  ghost predicate SameClaims(p: PC, q: PC) {
    && InCreate(p) == InCreate(q) && Counted(p) == Counted(q) && Holding(p) == Holding(q) && Needs(p) == Needs(q)
    && (Needs(p).Some? ==> OrderOf(p) == OrderOf(q))
    && (q.UnlockMu? ==> q.found == q.m)
  }

  ghost predicate SameLocks(s: State, s': State) {
    s'.create == s.create && s'.table == s.table && s'.mutexes == s.mutexes
  }

  lemma CountsFrame(s: State, s': State, t: Thread, q: PC)
    requires CountsOk(s) && t in s.pc && s'.pc == s.pc[t := q] && Counted(s.pc[t]) == Counted(q)
    requires s'.mutexes.Keys == s.mutexes.Keys && forall m | m in s.mutexes :: s'.mutexes[m].refCount == s.mutexes[m].refCount
    ensures CountsOk(s')
  {
    hide Users, Counted;
    forall m | m in s'.mutexes ensures s'.mutexes[m].refCount == |Users(s'.pc, m)| {
      UsersSame(s.pc, t, q, m);
    }
  }

  lemma MoveKeeps(s: State, s': State, t: Thread, q: PC)
    requires LockInv(s) && t in s.pc && s'.pc == s.pc[t := q] && SameLocks(s, s') && SameClaims(s.pc[t], q)
    ensures LockInv(s')
  {
    hide Users, CreateOk, CountsOk, NeedsOk, TableOk, HoldOk, FoundOk;
    hide Counted, Needs, Holding, OrderOf, InCreate;
    MoveFrame(s, s', t, q);
    CountsFrame(s, s', t, q);
    HoldMove(s, s', t, q);
  }

  lemma MoveFrame(s: State, s': State, t: Thread, q: PC)
    requires CreateOk(s) && NeedsOk(s) && TableOk(s) && FoundOk(s) && t in s.pc && s'.pc == s.pc[t := q]
    requires SameLocks(s, s') && SameClaims(s.pc[t], q)
    ensures CreateOk(s') && NeedsOk(s') && TableOk(s') && FoundOk(s')
  {
    hide Counted, Needs, Holding, OrderOf, InCreate;
  }

  lemma HoldMove(s: State, s': State, t: Thread, q: PC)
    requires HoldOk(s) && t in s.pc && s'.pc == s.pc[t := q] && s'.mutexes == s.mutexes && Holding(s.pc[t]) == Holding(q)
    ensures HoldOk(s')
  {
    hide Holding;
    forall m | m in s'.mutexes && s'.mutexes[m].locked ensures exists u :: u in s'.pc && Holding(s'.pc[u]) == Some(m) {
      var u :| u in s.pc && Holding(s.pc[u]) == Some(m);
      assert u in s'.pc && Holding(s'.pc[u]) == Some(m);
    }
  }

  /** A thread takes the create lock. */
  lemma AcquireKeeps(s: State, s': State, t: Thread, q: PC)
    requires LockInv(s) && t in s.pc && s.create.None?
    requires s' == s.(create := Some(t), pc := s.pc[t := q])
    requires InCreate(q) && Counted(s.pc[t]) == Counted(q) && Holding(s.pc[t]) == Holding(q) == None
    requires Needs(s.pc[t]) == Needs(q) && (Needs(q).Some? ==> OrderOf(s.pc[t]) == OrderOf(q)) && !q.UnlockMu?
    ensures LockInv(s')
  {
    hide Users, CreateOk, CountsOk, NeedsOk, TableOk, HoldOk, FoundOk;
    hide Counted, Needs, Holding, OrderOf, InCreate;
    AcquireFrame(s, s', t, q);
    CountsFrame(s, s', t, q);
    HoldMove(s, s', t, q);
  }

  lemma AcquireFrame(s: State, s': State, t: Thread, q: PC)
    requires CreateOk(s) && NeedsOk(s) && TableOk(s) && FoundOk(s) && t in s.pc && s.create.None?
    requires s' == s.(create := Some(t), pc := s.pc[t := q]) && InCreate(q)
    requires Needs(s.pc[t]) == Needs(q) && (Needs(q).Some? ==> OrderOf(s.pc[t]) == OrderOf(q)) && !q.UnlockMu?
    ensures CreateOk(s') && NeedsOk(s') && TableOk(s') && FoundOk(s')
  {
    hide Needs, OrderOf, InCreate;
  }

  /** A thread gives the create lock back; if it leaves an entry it relied on, the count keeps it. */
  lemma ReleaseKeeps(s: State, s': State, t: Thread, q: PC)
    requires LockInv(s) && t in s.pc && InCreate(s.pc[t])
    requires s' == s.(create := None, pc := s.pc[t := q])
    requires !InCreate(q) && Counted(s.pc[t]) == Counted(q) == Needs(s.pc[t]) == Needs(q) && Holding(s.pc[t]) == Holding(q) == None
    requires (Needs(q).Some? ==> OrderOf(s.pc[t]) == OrderOf(q)) && !q.UnlockMu?
    ensures LockInv(s')
  {
    hide Users, CreateOk, CountsOk, NeedsOk, TableOk, HoldOk, FoundOk;
    hide Counted, Needs, Holding, OrderOf, InCreate;
    if Needs(q).Some? { NeededCount(s, t, Needs(q).value); }
    ReleaseFrame(s, s', t, q);
    CountsFrame(s, s', t, q);
    HoldMove(s, s', t, q);
  }

  lemma ReleaseFrame(s: State, s': State, t: Thread, q: PC)
    requires CreateOk(s) && NeedsOk(s) && TableOk(s) && FoundOk(s) && t in s.pc && InCreate(s.pc[t])
    requires s' == s.(create := None, pc := s.pc[t := q]) && !InCreate(q)
    requires Needs(s.pc[t]) == Needs(q) && (Needs(q).Some? ==> OrderOf(s.pc[t]) == OrderOf(q)) && !q.UnlockMu?
    requires Needs(q).Some? ==> Needs(q).value in s.mutexes && s.mutexes[Needs(q).value].refCount > 0
    ensures CreateOk(s') && NeedsOk(s') && TableOk(s') && FoundOk(s')
  {
    hide Needs, OrderOf, InCreate;
  }

  /** What a thread in the count relies on is there, and counted. */
  lemma NeededCount(s: State, t: Thread, m: Ref)
    requires CountsOk(s) && NeedsOk(s) && t in s.pc && Counted(s.pc[t]) == Needs(s.pc[t]) == Some(m)
    ensures m in s.mutexes && s.mutexes[m].refCount > 0
  {
    hide Users, Counted, Needs, OrderOf, CountsOk;
    CountedPositive(s, t, m);
  }

  /** Whoever is at a place inside the create lock owns it. */
  lemma CreateOwner(s: State, t: Thread)
    requires CreateOk(s) && t in s.pc && InCreate(s.pc[t])
    ensures s.create == Some(t)
  {
    hide InCreate;
  }

  lemma CountNatural(s: State, m: Ref)
    requires CountsOk(s) && m in s.mutexes
    ensures s.mutexes[m].refCount >= 0
  {
  }

  /** A thread in the count makes it positive. */
  lemma CountedPositive(s: State, t: Thread, m: Ref)
    requires CountsOk(s) && t in s.pc && Counted(s.pc[t]) == Some(m) && m in s.mutexes
    ensures s.mutexes[m].refCount > 0
  {
    assert t in Users(s.pc, m);
  }

  /** All that a place says about the locks. */
  ghost predicate Claims(p: PC, create: bool, counted: Option<Ref>, holding: Option<Ref>, needs: Option<Ref>, o: Order) {
    InCreate(p) == create && Counted(p) == counted && Holding(p) == holding && Needs(p) == needs && OrderOf(p) == o
  }

  /** LockLoad, entry found: the thread now relies on it. */
  lemma LoadKeeps(s: State, t: Thread, o: Order, job: Job)
    requires LockInv(s) && t in s.pc && s.pc[t] == LockLoad(o, job) && o in s.table
    ensures LockInv(Go(s, t, LockCount(o, job, s.table[o])))
  {
    hide Users, CreateOk, CountsOk, NeedsOk, TableOk, HoldOk, FoundOk;
    var q := LockCount(o, job, s.table[o]);
    var s' := Go(s, t, q);
    assert Claims(s.pc[t], true, None, None, None, o) && Claims(q, true, None, None, Some(s.table[o]), o);
    hide Counted, Needs, Holding, OrderOf, InCreate;
    LoadFrame(s, s', t, q, s.table[o], o);
    CountsFrame(s, s', t, q);
    HoldMove(s, s', t, q);
  }

  lemma LoadFrame(s: State, s': State, t: Thread, q: PC, m: Ref, o: Order)
    requires CreateOk(s) && NeedsOk(s) && TableOk(s) && FoundOk(s) && t in s.pc && s'.pc == s.pc[t := q] && SameLocks(s, s')
    requires InCreate(s.pc[t]) && InCreate(q) && Needs(s.pc[t]) == None && Needs(q) == Some(m) && OrderOf(q) == o && !q.UnlockMu?
    requires o in s.table && s.table[o] == m
    ensures CreateOk(s') && NeedsOk(s') && TableOk(s') && FoundOk(s')
  {
    hide Needs, InCreate, OrderOf;
  }

  /** LockLoad, no entry: a new mutex with count zero, which only this thread relies on. */
  lemma StoreKeeps(s: State, s': State, t: Thread, o: Order, job: Job, m: Ref)
    requires LockInv(s) && t in s.pc && s.pc[t] == LockLoad(o, job) && o !in s.table && m !in s.mutexes
    requires s' == Go(s, t, LockCount(o, job, m)).(table := s.table[o := m], mutexes := s.mutexes[m := Rcm(false, 0, o)])
    ensures LockInv(s')
  {
    hide Users, CreateOk, CountsOk, NeedsOk, TableOk, HoldOk, FoundOk;
    var q := LockCount(o, job, m);
    assert Claims(s.pc[t], true, None, None, None, o) && Claims(q, true, None, None, Some(m), o);
    hide Counted, Needs, Holding, OrderOf, InCreate;
    StoreFrame(s, s', t, q, m, o);
    NoUsers(s, m);
    CountsWider(s, s', t, q, m);
    HoldWider(s, s', t, q, m);
  }

  lemma StoreFrame(s: State, s': State, t: Thread, q: PC, m: Ref, o: Order)
    requires CreateOk(s) && NeedsOk(s) && TableOk(s) && FoundOk(s) && t in s.pc && s'.pc == s.pc[t := q] && s'.create == s.create
    requires InCreate(s.pc[t]) && InCreate(q) && Needs(s.pc[t]) == None && Needs(q) == Some(m) && OrderOf(q) == o && !q.UnlockMu?
    requires o !in s.table && s'.table == s.table[o := m] && m !in s.mutexes && s'.mutexes == s.mutexes[m := Rcm(false, 0, o)]
    ensures CreateOk(s') && NeedsOk(s') && TableOk(s') && FoundOk(s')
  {
    hide Needs, InCreate, OrderOf;
  }

  lemma CountsWider(s: State, s': State, t: Thread, q: PC, m: Ref)
    requires CountsOk(s) && t in s.pc && s'.pc == s.pc[t := q] && Counted(s.pc[t]) == Counted(q) == None
    requires m !in s.mutexes && Users(s.pc, m) == {} && exists r: Rcm :: r.refCount == 0 && s'.mutexes == s.mutexes[m := r]
    ensures CountsOk(s')
  {
    hide Users, Counted;
    forall k | k in s'.mutexes ensures s'.mutexes[k].refCount == |Users(s'.pc, k)| {
      UsersSame(s.pc, t, q, k);
    }
  }

  lemma HoldWider(s: State, s': State, t: Thread, q: PC, m: Ref)
    requires HoldOk(s) && t in s.pc && s'.pc == s.pc[t := q] && Holding(s.pc[t]) == Holding(q)
    requires m !in s.mutexes && exists r: Rcm :: !r.locked && s'.mutexes == s.mutexes[m := r]
    ensures HoldOk(s')
  {
    hide Holding;
    forall k | k in s'.mutexes && s'.mutexes[k].locked ensures exists u :: u in s'.pc && Holding(s'.pc[u]) == Some(k) {
      var u :| u in s.pc && Holding(s.pc[u]) == Some(k);
      assert u in s'.pc && Holding(s'.pc[u]) == Some(k);
    }
  }

  /** Changing a count, and nothing else of a mutex, keeps who holds what. */
  lemma HoldCount(s: State, s': State, t: Thread, q: PC, m: Ref, n: int)
    requires HoldOk(s) && t in s.pc && s'.pc == s.pc[t := q] && Holding(s.pc[t]) == Holding(q)
    requires m in s.mutexes && s'.mutexes == s.mutexes[m := s.mutexes[m].(refCount := n)]
    ensures HoldOk(s')
  {
    hide Holding;
    forall k | k in s'.mutexes && s'.mutexes[k].locked ensures exists u :: u in s'.pc && Holding(s'.pc[u]) == Some(k) {
      var u :| u in s.pc && Holding(s.pc[u]) == Some(k);
      assert u in s'.pc && Holding(s'.pc[u]) == Some(k);
    }
  }

  /** A step on one mutex that leaves table and create lock alone; a count may change
      only in the hands of the create lock's owner. */
  lemma MutexFrame(s: State, s': State, t: Thread, q: PC)
    requires CreateOk(s) && NeedsOk(s) && TableOk(s) && FoundOk(s) && t in s.pc
    requires s'.pc == s.pc[t := q] && s'.create == s.create && s'.table == s.table && s'.mutexes.Keys == s.mutexes.Keys
    requires forall m | m in s.mutexes :: s'.mutexes[m].order == s.mutexes[m].order
    requires forall m | m in s.mutexes ::
      s'.mutexes[m].refCount == s.mutexes[m].refCount || (s.create == Some(t) && Needs(q) == Some(m))
    requires InCreate(s.pc[t]) == InCreate(q) && Needs(s.pc[t]) == Needs(q) && OrderOf(s.pc[t]) == OrderOf(q) && !q.UnlockMu?
    ensures CreateOk(s') && NeedsOk(s') && TableOk(s') && FoundOk(s')
  {
    hide Needs, InCreate, OrderOf;
  }

  /** A thread joins the count of a mutex, or leaves it. */
  lemma CountsChange(s: State, s': State, t: Thread, q: PC, m: Ref, step: int)
    requires CountsOk(s) && t in s.pc && s'.pc == s.pc[t := q] && m in s.mutexes
    requires s'.mutexes == s.mutexes[m := s.mutexes[m].(refCount := s.mutexes[m].refCount + step)]
    requires if step == 1 then Counted(s.pc[t]) == None && Counted(q) == Some(m)
             else step == -1 && Counted(s.pc[t]) == Some(m) && Counted(q) == None
    ensures CountsOk(s')
  {
    hide Users, Counted;
    forall k | k in s'.mutexes ensures s'.mutexes[k].refCount == |Users(s'.pc, k)| {
      if k != m { UsersSame(s.pc, t, q, k); } else if step == 1 { UsersJoin(s.pc, t, q, m); } else { UsersLeave(s.pc, t, q, m); }
    }
  }

  /** refCount++ */
  lemma CountKeeps(s: State, s': State, t: Thread, o: Order, job: Job, m: Ref)
    requires LockInv(s) && t in s.pc && s.pc[t] == LockCount(o, job, m) && m in s.mutexes
    requires s' == Go(s, t, LockRelease(o, job, m)).(mutexes := s.mutexes[m := s.mutexes[m].(refCount := s.mutexes[m].refCount + 1)])
    ensures LockInv(s')
  {
    hide Users, CreateOk, CountsOk, NeedsOk, TableOk, HoldOk, FoundOk;
    var q := LockRelease(o, job, m);
    assert Claims(s.pc[t], true, None, None, Some(m), o) && Claims(q, true, Some(m), None, Some(m), o);
    hide Counted, Needs, Holding, OrderOf, InCreate;
    CreateOwner(s, t);
    MutexFrame(s, s', t, q);
    CountsChange(s, s', t, q, m, 1);
    HoldCount(s, s', t, q, m, s.mutexes[m].refCount + 1);
  }

  /** refCount-- */
  lemma UncountKeeps(s: State, s': State, t: Thread, o: Order, m: Ref)
    requires LockInv(s) && t in s.pc && s.pc[t] == UnlockCount(o, m) && m in s.mutexes
    requires s' == Go(s, t, UnlockDelete(o, m)).(mutexes := s.mutexes[m := s.mutexes[m].(refCount := s.mutexes[m].refCount - 1)])
    ensures LockInv(s')
  {
    hide Users, CreateOk, CountsOk, NeedsOk, TableOk, HoldOk, FoundOk;
    var q := UnlockDelete(o, m);
    assert Claims(s.pc[t], true, Some(m), None, Some(m), o) && Claims(q, true, None, None, Some(m), o);
    hide Counted, Needs, Holding, OrderOf, InCreate;
    CreateOwner(s, t);
    MutexFrame(s, s', t, q);
    CountsChange(s, s', t, q, m, -1);
    HoldCount(s, s', t, q, m, s.mutexes[m].refCount - 1);
  }

  /** mu.Lock */
  lemma LockMuKeeps(s: State, s': State, t: Thread, o: Order, job: Job, m: Ref)
    requires LockInv(s) && t in s.pc && s.pc[t] == LockWait(o, job, m) && m in s.mutexes && !s.mutexes[m].locked
    requires s' == Go(s, t, Body(o, job, m, Reading)).(mutexes := s.mutexes[m := s.mutexes[m].(locked := true)])
    ensures LockInv(s')
  {
    hide Users, CreateOk, CountsOk, NeedsOk, TableOk, HoldOk, FoundOk;
    var q := Body(o, job, m, Reading);
    assert Claims(s.pc[t], false, Some(m), None, Some(m), o) && Claims(q, false, Some(m), Some(m), Some(m), o);
    hide Counted, Needs, Holding, OrderOf, InCreate;
    MutexFrame(s, s', t, q);
    CountsFrame(s, s', t, q);
    HoldTaken(s, s', t, q, m);
  }

  lemma HoldTaken(s: State, s': State, t: Thread, q: PC, m: Ref)
    requires HoldOk(s) && t in s.pc && s'.pc == s.pc[t := q] && Holding(s.pc[t]) == None && Holding(q) == Some(m)
    requires m in s.mutexes && !s.mutexes[m].locked && s'.mutexes == s.mutexes[m := s.mutexes[m].(locked := true)]
    ensures HoldOk(s')
  {
    hide Holding;
    forall k | k in s'.mutexes && s'.mutexes[k].locked ensures exists u :: u in s'.pc && Holding(s'.pc[u]) == Some(k) {
      if k == m {
        assert t in s'.pc && Holding(s'.pc[t]) == Some(m);
      } else {
        var u :| u in s.pc && Holding(s.pc[u]) == Some(k);
        assert u in s'.pc && Holding(s'.pc[u]) == Some(k);
      }
    }
  }

  /** mu.Unlock: by the invariant, of the mutex this thread locked. */
  lemma UnlockMuKeeps(s: State, s': State, t: Thread, o: Order, m: Ref)
    requires LockInv(s) && t in s.pc && s.pc[t] == UnlockMu(o, m, m) && m in s.mutexes
    requires s' == Go(s, t, UnlockCreate(o, m)).(mutexes := s.mutexes[m := s.mutexes[m].(locked := false)])
    ensures LockInv(s')
  {
    hide Users, CreateOk, CountsOk, NeedsOk, TableOk, HoldOk, FoundOk;
    var q := UnlockCreate(o, m);
    assert Claims(s.pc[t], false, Some(m), Some(m), Some(m), o) && Claims(q, false, Some(m), None, Some(m), o);
    hide Counted, Needs, Holding, OrderOf, InCreate;
    MutexFrame(s, s', t, q);
    CountsFrame(s, s', t, q);
    HoldGiven(s, s', t, q, m);
  }

  lemma HoldGiven(s: State, s': State, t: Thread, q: PC, m: Ref)
    requires HoldOk(s) && t in s.pc && s'.pc == s.pc[t := q] && Holding(s.pc[t]) == Some(m) && Holding(q) == None
    requires m in s.mutexes && s'.mutexes == s.mutexes[m := s.mutexes[m].(locked := false)]
    ensures HoldOk(s')
  {
    hide Holding;
    forall k | k in s'.mutexes && s'.mutexes[k].locked ensures exists u :: u in s'.pc && Holding(s'.pc[u]) == Some(k) {
      var u :| u in s.pc && Holding(s.pc[u]) == Some(k);
      assert u in s'.pc && Holding(s'.pc[u]) == Some(k);
    }
  }

  lemma NobodyElseNeeds(s: State, t: Thread, m: Ref)
    requires LockInv(s) && t in s.pc && s.create == Some(t) && m in s.mutexes && s.mutexes[m].refCount == 0
    ensures forall u | u in s.pc && u != t :: Needs(s.pc[u]) != Some(m)
  {
    hide Users, TableOk, HoldOk, NeedsOk, CountsOk;
    forall u | u in s.pc && u != t ensures Needs(s.pc[u]) != Some(m) {
      if Counted(s.pc[u]) == Some(m) {
        CountedPositive(s, u, m);
      }
    }
  }

  /** Delete at zero: nobody else can be relying on the entry. */
  lemma DeleteKeeps(s: State, s': State, t: Thread, o: Order, m: Ref)
    requires LockInv(s) && t in s.pc && s.pc[t] == UnlockDelete(o, m) && m in s.mutexes && s.mutexes[m].refCount == 0
    requires s' == Go(s, t, UnlockRelease(o)).(table := s.table - {o})
    ensures LockInv(s')
  {
    hide Users, CreateOk, CountsOk, NeedsOk, TableOk, HoldOk, FoundOk;
    var q := UnlockRelease(o);
    assert Claims(s.pc[t], true, None, None, Some(m), o) && Claims(q, true, None, None, None, o);
    hide Counted, Needs, Holding, OrderOf, InCreate;
    CreateOwner(s, t);
    NobodyElseNeeds(s, t, m);
    DeleteFrame(s, s', t, q, m, o);
    CountsFrame(s, s', t, q);
    HoldMove(s, s', t, q);
  }

  lemma DeleteFrame(s: State, s': State, t: Thread, q: PC, m: Ref, o: Order)
    requires CreateOk(s) && NeedsOk(s) && TableOk(s) && FoundOk(s) && t in s.pc && s'.pc == s.pc[t := q]
    requires s'.create == s.create && s'.mutexes == s.mutexes && s'.table == s.table - {o}
    requires InCreate(s.pc[t]) && InCreate(q) && Needs(s.pc[t]) == Some(m) && OrderOf(s.pc[t]) == o && Needs(q) == None && !q.UnlockMu?
    requires forall u | u in s.pc && u != t :: Needs(s.pc[u]) != Some(m)
    ensures CreateOk(s') && NeedsOk(s') && TableOk(s') && FoundOk(s')
  {
    hide Needs, InCreate, OrderOf;
  }

  lemma KeepKeeps(s: State, t: Thread, o: Order, m: Ref)
    requires LockInv(s) && t in s.pc && s.pc[t] == UnlockDelete(o, m) && m in s.mutexes && s.mutexes[m].refCount != 0
    ensures LockInv(Go(s, t, UnlockRelease(o)))
  {
    hide Users, CreateOk, CountsOk, NeedsOk, TableOk, HoldOk, FoundOk;
    var q := UnlockRelease(o);
    var s' := Go(s, t, q);
    assert Claims(s.pc[t], true, None, None, Some(m), o) && Claims(q, true, None, None, None, o);
    hide Counted, Needs, Holding, OrderOf, InCreate;
    CountNatural(s, m);
    ForgetFrame(s, s', t, q, m);
    CountsFrame(s, s', t, q);
    HoldMove(s, s', t, q);
  }

  lemma ForgetFrame(s: State, s': State, t: Thread, q: PC, m: Ref)
    requires CreateOk(s) && NeedsOk(s) && TableOk(s) && FoundOk(s) && t in s.pc && s'.pc == s.pc[t := q] && SameLocks(s, s')
    requires InCreate(s.pc[t]) == InCreate(q) && Needs(s.pc[t]) == Some(m) && Needs(q) == None && !q.UnlockMu?
    requires m in s.mutexes && s.mutexes[m].refCount > 0
    ensures CreateOk(s') && NeedsOk(s') && TableOk(s') && FoundOk(s')
  {
    hide Needs, InCreate, OrderOf;
  }

  lemma FrameKeeps(s: State, s': State)
    requires LockInv(s) && SameLocks(s, s') && s'.pc == s.pc
    ensures LockInv(s')
  {
    hide Users;
  }

  lemma BodyKeeps(s: State, t: Thread, o: Order, job: Job, m: Ref, stage: Stage, ok: bool, worth: int -> int)
    requires LockInv(s) && t in s.pc && s.pc[t] == Body(o, job, m, stage)
    ensures LockInv(BodyStep(s, t, o, job, m, stage, ok, worth))
  {
    hide LockInv;
    var s' := BodyStep(s, t, o, job, m, stage, ok, worth);
    assert s'.pc == s.pc[t := s'.pc[t]];
    MoveKeeps(s, s', t, s'.pc[t]);
  }

  lemma UnlockFindsOwn(s: State, t: Thread, o: Order, m: Ref)
    requires LockInv(s) && t in s.pc && s.pc[t] == UnlockLoad(o, m)
    ensures o in s.table && s.table[o] == m
  {
    hide CreateOk, CountsOk, TableOk, HoldOk, FoundOk;
    assert Needs(s.pc[t]) == Some(m) && OrderOf(s.pc[t]) == o;
  }

  /** Every step of every thread keeps the lock invariant. */
  lemma StepKeepsLocks(s: State, a: Action, worth: int -> int)
    requires LockInv(s) && Enabled(s, a)
    ensures LockInv(After(s, a, worth))
  {
    hide LockInv, BodyStep;
    var s' := After(s, a, worth);
    if a.Insert? {
      FrameKeeps(s, s');
    } else {
      ThreadStepKeeps(s, a, worth);
    }
  }

  lemma FoundIsOwn(s: State, t: Thread)
    requires LockInv(s) && t in s.pc && s.pc[t].UnlockMu?
    ensures s.pc[t].found == s.pc[t].m
  {
  }

  lemma ThreadStepKeeps(s: State, a: Action, worth: int -> int)
    requires LockInv(s) && a.Run? && Enabled(s, a)
    ensures LockInv(After(s, a, worth))
  {
    hide LockInv, BodyStep;
    var s' := After(s, a, worth);
    var t := a.t;
    match s.pc[t]
    case Idle => MoveKeeps(s, s', t, s'.pc[t]);
    case LockCreate(o, job) => AcquireKeeps(s, s', t, LockLoad(o, job));
    case LockLoad(o, job) => if o in s.table { LoadKeeps(s, t, o, job); } else { StoreKeeps(s, s', t, o, job, a.spare); }
    case LockCount(o, job, m) => CountKeeps(s, s', t, o, job, m);
    case LockRelease(o, job, m) => ReleaseKeeps(s, s', t, LockWait(o, job, m));
    case LockWait(o, job, m) => LockMuKeeps(s, s', t, o, job, m);
    case Body(o, job, m, stage) => BodyKeeps(s, t, o, job, m, stage, a.ok, worth);
    case UnlockLoad(o, m) =>
      UnlockFindsOwn(s, t, o, m);
      MoveKeeps(s, s', t, UnlockMu(o, m, m));
    case UnlockMu(o, m, found) =>
      FoundIsOwn(s, t);
      UnlockMuKeeps(s, s', t, o, m);
    case UnlockCreate(o, m) => AcquireKeeps(s, s', t, UnlockCount(o, m));
    case UnlockCount(o, m) => UncountKeeps(s, s', t, o, m);
    case UnlockDelete(o, m) => if s.mutexes[m].refCount == 0 { DeleteKeeps(s, s', t, o, m); } else { KeepKeeps(s, t, o, m); }
    case UnlockRelease(o) => ReleaseKeeps(s, s', t, Idle);
  }

  // ----- what the invariant means

  /** At most one thread at a time is between lock and unlock of an order. */
  lemma MutualExclusion(s: State, t: Thread, u: Thread)
    requires LockInv(s) && t in s.pc && u in s.pc
    requires Holding(s.pc[t]).Some? && Holding(s.pc[u]).Some? && OrderOf(s.pc[t]) == OrderOf(s.pc[u])
    ensures t == u
  {
    hide CreateOk, CountsOk, TableOk, FoundOk, OrderOf;
    assert Needs(s.pc[t]) == Holding(s.pc[t]) && Needs(s.pc[u]) == Holding(s.pc[u]);
  }

  /** Outside the create lock, an entry is in the table exactly while its count is positive. */
  lemma EntriesExact(s: State)
    requires LockInv(s) && s.create.None?
    ensures forall o | o in s.table :: s.table[o] in s.mutexes && s.mutexes[s.table[o]].refCount > 0
    ensures forall m | m in s.mutexes && s.mutexes[m].refCount > 0 :: s.mutexes[m].order in s.table && s.table[s.mutexes[m].order] == m
  {
    hide CreateOk, HoldOk, FoundOk, OrderOf;
    forall m | m in s.mutexes && s.mutexes[m].refCount > 0 ensures s.mutexes[m].order in s.table && s.table[s.mutexes[m].order] == m {
      var t :| t in Users(s.pc, m);
      assert Needs(s.pc[t]) == Some(m);
    }
  }

  /** When every thread is done, nothing is left behind. */
  lemma QuiescentEmpty(s: State)
    requires LockInv(s) && forall t | t in s.pc :: s.pc[t] == Idle
    ensures s.create.None? && s.table == map[]
    ensures forall m | m in s.mutexes :: s.mutexes[m].refCount == 0 && !s.mutexes[m].locked
  {
    hide NeedsOk, FoundOk;
    forall m | m in s.mutexes ensures s.mutexes[m].refCount == 0 {
      assert Users(s.pc, m) == {};
    }
  }

  /** Some thread that is at work can always take a step. */
  lemma NoDeadlock(s: State, t: Thread) returns (a: Action)
    requires LockInv(s) && t in s.pc && s.pc[t] != Idle
    ensures a.Run? && Enabled(s, a) && s.pc[a.t] != Idle
  {
    hide CountsOk, TableOk, FoundOk, Users;
    var spare := UnusedRef(s.mutexes.Keys);
    if s.create.Some? {
      a := Run(s.create.value, "", StripeFailed, spare, true);
    } else if s.pc[t].LockWait? && s.mutexes[s.pc[t].m].locked {
      var u :| u in s.pc && Holding(s.pc[u]) == Some(s.pc[t].m);
      a := Run(u, "", StripeFailed, spare, true);
      if s.pc[u].UnlockMu? { HeldFound(s, u); }
    } else {
      a := Run(t, "", StripeFailed, spare, true);
      if s.pc[t].UnlockMu? { HeldFound(s, t); }
    }
  }

  lemma HeldFound(s: State, t: Thread)
    requires LockInv(s) && t in s.pc && s.pc[t].UnlockMu?
    ensures s.pc[t].found == s.pc[t].m && s.pc[t].m in s.mutexes
  {
    hide CountsOk, TableOk, CreateOk, NeedsOk, Users;
    assert Holding(s.pc[t]) == Some(s.pc[t].m);
  }

  lemma {:induction false} UnusedRef(refs: set<Ref>) returns (r: Ref)
    ensures r !in refs && forall x | x in refs :: x < r
  {
    if refs == {} { return 0; }
    var x :| x in refs;
    var r' := UnusedRef(refs - {x});
    r := if r' <= x then x + 1 else r';
    forall y | y in refs ensures y < r {
      if y != x { assert y in refs - {x}; }
    }
  }
}
