/** What the payment handlers do to orders under their locks, over whole runs: an order
    leaves pending at most once and is credited at most once. */
module OrderCredit {
  import opened Options
  import opened OrderLocks

  // ----- the orders

  ghost function LeftCount(log: seq<Event>, o: Order): nat {
    if log == [] then 0
    else
      var e := log[|log| - 1];
      LeftCount(log[..|log| - 1], o) + if e.Left? && e.o == o then 1 else 0
  }

  ghost function CreditCount(log: seq<Event>, o: Order): nat {
    if log == [] then 0
    else
      var e := log[|log| - 1];
      CreditCount(log[..|log| - 1], o) + if e.Credited? && e.o == o then 1 else 0
  }

  lemma CountSnoc(log: seq<Event>, e: Event, o: Order)
    ensures LeftCount(log + [e], o) == LeftCount(log, o) + if e.Left? && e.o == o then 1 else 0
    ensures CreditCount(log + [e], o) == CreditCount(log, o) + if e.Credited? && e.o == o then 1 else 0
  {
    assert (log + [e])[..|log|] == log;
  }

  /** What a handler read is still what the database holds. */
  ghost predicate FreshOk(s: State) {
    forall t | t in s.pc && s.pc[t].Body? ::
      var o := s.pc[t].o;
      match s.pc[t].stage
      case Reading => true
      case HasRow(None) => true
      case HasRow(Some(row)) => o in s.db && s.db[o] == row
      case Written(row) =>
        && o in s.db && s.db[o] == row && row.status == Success && row.provider == Epay
        && CreditCount(s.log, o) == 0 && LeftCount(s.log, o) == 1
  }

  /** The history of one order, and what it leaves behind. */
  ghost predicate OrderOk(s: State, o: Order) {
    && LeftCount(s.log, o) <= 1 && CreditCount(s.log, o) <= 1
    && (o !in s.db || s.db[o].status == Pending ==> LeftCount(s.log, o) == 0 && CreditCount(s.log, o) == 0)
    && (CreditCount(s.log, o) > 0 ==> LeftCount(s.log, o) == 1 && s.db[o].status == Success && s.db[o].provider == Epay)
  }

  /** Every credit is for the order's user and of the order's worth. */
  ghost predicate CreditsOk(s: State, worth: int -> int) {
    forall k | 0 <= k < |s.log| && s.log[k].Credited? ::
      var o := s.log[k].o;
      o in s.db && s.log[k] == Credited(o, s.db[o].user, worth(s.db[o].amount))
  }

  ghost predicate DbInv(s: State, worth: int -> int) {
    FreshOk(s) && CreditsOk(s, worth) && forall o :: OrderOk(s, o)
  }

  /** A step that changes neither database nor log. */
  lemma QuietKeeps(s: State, s': State, t: Thread, q: PC, worth: int -> int)
    requires DbInv(s, worth) && s'.db == s.db && s'.log == s.log && t in s.pc && s'.pc == s.pc[t := q]
    requires q.Body? ==> q.stage.Reading? || q.stage == HasRow(if q.o in s.db then Some(s.db[q.o]) else None)
    ensures DbInv(s', worth)
  {
    hide LeftCount, CreditCount;
    forall o ensures OrderOk(s', o) { assert OrderOk(s, o); }
  }

  /** Only the thread that holds an order's lock has read it. */
  lemma OnlyReader(s: State, t: Thread, u: Thread)
    requires LockInv(s) && t in s.pc && u in s.pc && s.pc[t].Body? && s.pc[u].Body? && s.pc[t].o == s.pc[u].o
    ensures t == u
  {
    hide LockInv;
    MutualExclusion(s, t, u);
  }

  /** An order leaves pending: written back by the thread that read it. */
  lemma LeaveKeeps(s: State, s': State, t: Thread, o: Order, q: PC, status: Status, row: Row, row': Row, worth: int -> int)
    requires LockInv(s) && DbInv(s, worth) && t in s.pc && s.pc[t].Body? && s.pc[t].o == o && s.pc[t].stage == HasRow(Some(row))
    requires row.status == Pending && row' == row.(status := status, payMethod := row'.payMethod) && status != Pending
    requires s'.pc == s.pc[t := q] && s'.db == s.db[o := row'] && s'.log == s.log + [Left(o, status)]
    requires q.Body? ==> q.o == o && q.stage == Written(row') && status == Success && row.provider == Epay
    ensures DbInv(s', worth)
  {
    hide LockInv, LeftCount, CreditCount;
    assert s.db[o] == row;
    assert OrderOk(s, o);
    forall o' ensures OrderOk(s', o') {
      assert OrderOk(s, o');
      CountSnoc(s.log, Left(o, status), o');
    }
    assert FreshOk(s') by {
      forall u | u in s'.pc && s'.pc[u].Body? && u != t ensures s'.pc[u].o != o {
        if s.pc[u].o == o { OnlyReader(s, t, u); }
      }
      forall o' ensures CreditCount(s'.log, o') == CreditCount(s.log, o') && (o' != o ==> LeftCount(s'.log, o') == LeftCount(s.log, o')) {
        CountSnoc(s.log, Left(o, status), o');
      }
      CountSnoc(s.log, Left(o, status), o);
    }
    assert CreditsOk(s', worth) by {
      forall k | 0 <= k < |s'.log| && s'.log[k].Credited?
        ensures s'.log[k].o in s'.db && s'.log[k] == Credited(s'.log[k].o, s'.db[s'.log[k].o].user, worth(s'.db[s'.log[k].o].amount))
      {
        assert s'.log[k] == s.log[k];
      }
    }
  }

  lemma CreditKeeps(s: State, s': State, t: Thread, o: Order, q: PC, row: Row, worth: int -> int)
    requires LockInv(s) && DbInv(s, worth) && t in s.pc && s.pc[t].Body? && s.pc[t].o == o && s.pc[t].stage == Written(row)
    requires s'.pc == s.pc[t := q] && !q.Body? && s'.db == s.db
    requires s'.log == s.log + [Credited(o, row.user, worth(row.amount))]
    ensures DbInv(s', worth)
  {
    hide LockInv, LeftCount, CreditCount;
    var e := Credited(o, row.user, worth(row.amount));
    forall o' ensures OrderOk(s', o') {
      assert OrderOk(s, o');
      CountSnoc(s.log, e, o');
    }
    assert FreshOk(s') by {
      forall u | u in s'.pc && s'.pc[u].Body? ensures s'.pc[u].o != o {
        if s.pc[u].o == o { OnlyReader(s, t, u); }
      }
      forall o' | o' != o ensures CreditCount(s'.log, o') == CreditCount(s.log, o') && LeftCount(s'.log, o') == LeftCount(s.log, o') {
        CountSnoc(s.log, e, o');
      }
    }
  }

  lemma InsertKeeps(s: State, o: Order, row: Row, worth: int -> int)
    requires DbInv(s, worth) && o !in s.db && row.status == Pending
    ensures DbInv(s.(db := s.db[o := row]), worth)
  {
    hide LeftCount, CreditCount;
    var s' := s.(db := s.db[o := row]);
    forall o' ensures OrderOk(s', o') { assert OrderOk(s, o'); }
  }

  lemma BodyKeepsDb(s: State, t: Thread, ok: bool, worth: int -> int)
    requires LockInv(s) && DbInv(s, worth) && t in s.pc && s.pc[t].Body?
    ensures DbInv(BodyStep(s, t, s.pc[t].o, s.pc[t].job, s.pc[t].m, s.pc[t].stage, ok, worth), worth)
  {
    hide LockInv, DbInv;
    var p := s.pc[t];
    var s' := BodyStep(s, t, p.o, p.job, p.m, p.stage, ok, worth);
    var q := s'.pc[t];
    match p.stage
    case Reading => QuietKeeps(s, s', t, q, worth);
    case HasRow(None) => QuietKeeps(s, s', t, q, worth);
    case HasRow(Some(row)) =>
      if s'.log == s.log {
        QuietKeeps(s, s', t, q, worth);
      } else {
        LeaveKeeps(s, s', t, p.o, q, s'.db[p.o].status, row, s'.db[p.o], worth);
      }
    case Written(row) =>
      if ok { CreditKeeps(s, s', t, p.o, q, row, worth); } else { QuietKeeps(s, s', t, q, worth); }
  }

  lemma StepKeepsDb(s: State, a: Action, worth: int -> int)
    requires LockInv(s) && DbInv(s, worth) && Enabled(s, a)
    ensures DbInv(After(s, a, worth), worth)
  {
    hide LockInv, DbInv, BodyStep;
    var s' := After(s, a, worth);
    match a
    case Insert(o, row) => InsertKeeps(s, o, row, worth);
    case Run(t, _, _, _, ok) =>
      if s.pc[t].Body? {
        BodyKeepsDb(s, t, ok, worth);
      } else {
        QuietStepKeeps(s, a, worth);
      }
  }

  /** Outside the handlers no step touches database or log. */
  lemma QuietStepKeeps(s: State, a: Action, worth: int -> int)
    requires a.Run? && Enabled(s, a) && !s.pc[a.t].Body? && DbInv(s, worth)
    ensures DbInv(After(s, a, worth), worth)
  {
    hide BodyStep, DbInv;
    var s' := After(s, a, worth);
    var t := a.t;
    match s.pc[t]
    case Idle => QuietKeeps(s, s', t, LockCreate(a.o, a.job), worth);
    case LockCreate(o, job) => QuietKeeps(s, s', t, LockLoad(o, job), worth);
    case LockLoad(o, job) => QuietKeeps(s, s', t, LockCount(o, job, if o in s.table then s.table[o] else a.spare), worth);
    case LockCount(o, job, m) => QuietKeeps(s, s', t, LockRelease(o, job, m), worth);
    case LockRelease(o, job, m) => QuietKeeps(s, s', t, LockWait(o, job, m), worth);
    case LockWait(o, job, m) => QuietKeeps(s, s', t, Body(o, job, m, Reading), worth);
    case UnlockLoad(o, m) => QuietKeeps(s, s', t, if o in s.table then UnlockMu(o, m, s.table[o]) else Idle, worth);
    case UnlockMu(o, _, found) => QuietKeeps(s, s', t, UnlockCreate(o, found), worth);
    case UnlockCreate(o, m) => QuietKeeps(s, s', t, UnlockCount(o, m), worth);
    case UnlockCount(o, m) => QuietKeeps(s, s', t, UnlockDelete(o, m), worth);
    case UnlockDelete(o, _) => QuietKeeps(s, s', t, UnlockRelease(o), worth);
    case UnlockRelease(_) => QuietKeeps(s, s', t, Idle, worth);
  }

  // ----- whole runs

  /** A run: any interleaving of any number of threads, from a state where none is at work. */
  ghost predicate IsRun(states: seq<State>, actions: seq<Action>, worth: int -> int) {
    && |states| == |actions| + 1 && Init(states[0])
    && forall i | 0 <= i < |actions| :: Enabled(states[i], actions[i]) && states[i + 1] == After(states[i], actions[i], worth)
  }

  lemma InitInv(s: State, worth: int -> int)
    requires Init(s)
    ensures LockInv(s) && DbInv(s, worth)
  {
  }

  lemma {:induction false} RunKeeps(states: seq<State>, actions: seq<Action>, worth: int -> int, k: nat)
    requires IsRun(states, actions, worth) && k < |states|
    ensures LockInv(states[k]) && DbInv(states[k], worth)
    decreases k
  {
    hide LockInv, DbInv, Init, Enabled, After;
    if k == 0 {
      InitInv(states[0], worth);
    } else {
      RunKeeps(states, actions, worth, k - 1);
      StepKeepsLocks(states[k - 1], actions[k - 1], worth);
      StepKeepsDb(states[k - 1], actions[k - 1], worth);
    }
  }

  /** In every state of every run: at most one holder per order, and its unlock finds the
      mutex it locked. */
  lemma LockSafety(states: seq<State>, actions: seq<Action>, worth: int -> int, k: nat, t: Thread, u: Thread)
    requires IsRun(states, actions, worth) && k < |states| && t in states[k].pc && u in states[k].pc
    ensures var s := states[k];
            && (Holding(s.pc[t]).Some? && Holding(s.pc[u]).Some? && OrderOf(s.pc[t]) == OrderOf(s.pc[u]) ==> t == u)
            && (s.pc[t].UnlockLoad? ==> s.pc[t].o in s.table && s.table[s.pc[t].o] == s.pc[t].m)
            && (s.pc[t].UnlockMu? ==> s.pc[t].found == s.pc[t].m)
  {
    hide LockInv, DbInv, IsRun, Holding, OrderOf;
    RunKeeps(states, actions, worth, k);
    var s := states[k];
    if Holding(s.pc[t]).Some? && Holding(s.pc[u]).Some? && OrderOf(s.pc[t]) == OrderOf(s.pc[u]) { MutualExclusion(s, t, u); }
    if s.pc[t].UnlockLoad? { UnlockFindsOwn(s, t, s.pc[t].o, s.pc[t].m); }
    if s.pc[t].UnlockMu? { FoundIsOwn(s, t); }
  }

  /** In every state of every run: an order has left pending at most once and been credited
      at most once, and only if it is an Epay order that moved to success; each credit is
      the truncated product for the order's own user. */
  lemma AtMostOnceCredit(states: seq<State>, actions: seq<Action>, worth: int -> int, k: nat, o: Order)
    requires IsRun(states, actions, worth) && k < |states|
    ensures var s := states[k];
            && LeftCount(s.log, o) <= 1 && CreditCount(s.log, o) <= 1
            && (CreditCount(s.log, o) == 1 ==>
                  o in s.db && s.db[o].provider == Epay && s.db[o].status == Success && LeftCount(s.log, o) == 1)
            && CreditsOk(s, worth)
  {
    hide LockInv, IsRun, LeftCount, CreditCount;
    RunKeeps(states, actions, worth, k);
    assert OrderOk(states[k], o);
  }

  // ----- the handler's own rule

  /** Amount times QuotaPerUnit, truncated toward zero. */
  function Credit(amount: int, quotaPerUnit: real): int {
    var r := amount as real * quotaPerUnit;
    if r >= 0.0 then r.Floor else -((-r).Floor)
  }

  /** The credit is the whole number next to the product on the side of zero. */
  lemma CreditTruncates(amount: int, quotaPerUnit: real)
    ensures var r, q := amount as real * quotaPerUnit, Credit(amount, quotaPerUnit);
            if r >= 0.0 then q as real <= r < (q + 1) as real else (q - 1) as real < r <= q as real
  {
  }

  /** So with the handler's own rule each credit in the log is Amount times QuotaPerUnit,
      truncated, for the order's own user. */
  lemma CreditedExactly(states: seq<State>, actions: seq<Action>, quotaPerUnit: real, k: nat, i: nat)
    requires IsRun(states, actions, amount => Credit(amount, quotaPerUnit)) && k < |states|
    requires i < |states[k].log| && states[k].log[i].Credited?
    ensures var s := states[k]; var e := s.log[i];
            e.o in s.db && e.user == s.db[e.o].user && e.quota == Credit(s.db[e.o].amount, quotaPerUnit)
  {
    hide LockInv, IsRun, Credit;
    AtMostOnceCredit(states, actions, amount => Credit(amount, quotaPerUnit), k, states[k].log[i].o);
  }
}
