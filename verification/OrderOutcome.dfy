/** What the payment handlers achieve: whatever they interleave with, a job that is done has
    settled its order, and an order settled as paid has been credited. */
module OrderOutcome {
  import opened OrderLocks
  import opened OrderCredit
  import opened OrderProgress

  /** The database accepts every write. */
  ghost predicate AllAccepted(actions: seq<Action>) {
    forall i | 0 <= i < |actions| && actions[i].Run? :: actions[i].ok
  }

  function ProviderOf(job: Job): Provider { if job.EpayNotify? then Epay else Stripe }

  function Target(job: Job): Status { if job.EpayNotify? then Success else Failed }

  // ----- how a row can change

  /** Not at all, or once: a pending Epay order to success, a pending Stripe order to failed. */
  predicate RowMoves(row: Row, row': Row) {
    || row' == row
    || (row.provider == Epay && row.status == Pending && row' == row.(status := Success, payMethod := row'.payMethod))
    || (row.provider == Stripe && row.status == Pending && row' == row.(status := Failed))
  }

  /** Only a thread in its handler, with a job for the order's own provider, changes a row; a
      notified payment records how it was made. */
  lemma StepRows(s: State, a: Action, worth: int -> int, o: Order)
    requires DbInv(s, worth) && Enabled(s, a) && o in s.db
    ensures var s' := After(s, a, worth);
            && o in s'.db && RowMoves(s.db[o], s'.db[o])
            && (s'.db[o] != s.db[o] ==>
                  && a.Run? && s.pc[a.t].Body? && s.pc[a.t].o == o && ProviderOf(s.pc[a.t].job) == s.db[o].provider
                  && s'.db[o].payMethod == if s.pc[a.t].job.EpayNotify? then s.pc[a.t].job.payType else s.db[o].payMethod)
  {
    hide OrderOk, CreditsOk, BodyStep;
    if a.Run? && s.pc[a.t].Body? {
      var p := s.pc[a.t];
      BodyRows(s, a.t, p.o, p.job, p.m, p.stage, a.ok, worth, o);
    }
  }

  lemma BodyRows(s: State, t: Thread, p: Order, job: Job, m: Ref, stage: Stage, ok: bool, worth: int -> int, o: Order)
    requires FreshOk(s) && t in s.pc && s.pc[t] == Body(p, job, m, stage) && o in s.db
    ensures var s' := BodyStep(s, t, p, job, m, stage, ok, worth);
            o in s'.db && RowMoves(s.db[o], s'.db[o]) && (s'.db[o] != s.db[o] ==>
              p == o && ProviderOf(job) == s.db[o].provider && s'.db[o].payMethod == if job.EpayNotify? then job.payType else s.db[o].payMethod)
  {
    hide CreditCount, LeftCount;
  }

  /** Over any run. An order of another provider is never changed. */
  lemma {:induction false} RunRows(states: seq<State>, actions: seq<Action>, worth: int -> int, i: nat, k: nat, o: Order)
    requires IsRun(states, actions, worth) && i <= k < |states| && o in states[i].db
    ensures o in states[k].db && RowMoves(states[i].db[o], states[k].db[o])
    decreases k - i
  {
    hide LockInv, DbInv, Init, Enabled, After;
    if i < k {
      RunRows(states, actions, worth, i, k - 1, o);
      RunKeeps(states, actions, worth, k - 1);
      StepRows(states[k - 1], actions[k - 1], worth, o);
    }
  }

  // ----- credits that are due

  /** A thread stands between the write and the credit for the order. */
  ghost predicate Owes(s: State, o: Order) {
    exists t :: t in s.pc && s.pc[t].Body? && s.pc[t].o == o && s.pc[t].stage.Written?
  }

  /** A paid order has been credited, or is about to be. */
  ghost predicate Due(s: State, o: Order) {
    o in s.db && s.db[o].provider == Epay && s.db[o].status == Success ==> CreditCount(s.log, o) == 1 || Owes(s, o)
  }

  /** A step of a thread: the log only grows, and other threads stay where they are. */
  lemma StepFrame(s: State, a: Action, worth: int -> int, o: Order)
    requires Enabled(s, a)
    ensures var s' := After(s, a, worth);
            && CreditCount(s'.log, o) >= CreditCount(s.log, o)
            && (forall u | u in s.pc && !(a.Run? && u == a.t) :: u in s'.pc && s'.pc[u] == s.pc[u])
            && (a.Insert? ==> s'.db == s.db[a.o := a.row] && a.row.status == Pending && a.o !in s.db && s'.log == s.log)
  {
    LogGrows(s, a, worth, o);
    hide CreditCount;
    if a.Run? {
      StepMoves(s, a, worth);
      hide After, Enabled, ToDo;
    }
  }

  lemma LogGrows(s: State, a: Action, worth: int -> int, o: Order)
    requires Enabled(s, a)
    ensures CreditCount(After(s, a, worth).log, o) >= CreditCount(s.log, o)
  {
    hide CreditCount;
    var s' := After(s, a, worth);
    if s'.log != s.log {
      var e := s'.log[|s.log|];
      assert s'.log == s.log + [e];
      CountSnoc(s.log, e, o);
    }
  }

  /** The thread that owes a credit pays it with its next step. */
  lemma Pays(s: State, a: Action, worth: int -> int, o: Order)
    requires Enabled(s, a) && a.Run? && a.ok && s.pc[a.t].Body? && s.pc[a.t].o == o && s.pc[a.t].stage.Written?
    ensures CreditCount(After(s, a, worth).log, o) == CreditCount(s.log, o) + 1
  {
    hide CreditCount;
    var row := s.pc[a.t].stage.row;
    CountSnoc(s.log, Credited(o, row.user, worth(row.amount)), o);
  }

  /** Whoever makes an order paid owes its credit. */
  lemma Incurs(s: State, a: Action, worth: int -> int, o: Order)
    requires DbInv(s, worth) && Enabled(s, a) && o in s.db && s.db[o].status != Success
    requires After(s, a, worth).db[o].status == Success
    ensures Owes(After(s, a, worth), o)
  {
    StepRows(s, a, worth, o);
    hide DbInv, RowMoves;
    var s' := After(s, a, worth);
    assert a.t in s'.pc && s'.pc[a.t].Body? && s'.pc[a.t].o == o && s'.pc[a.t].stage.Written?;
  }

  lemma StepDue(s: State, a: Action, worth: int -> int, o: Order)
    requires DbInv(s, worth) && Enabled(s, a) && DbInv(After(s, a, worth), worth) && (a.Run? ==> a.ok) && Due(s, o)
    ensures Due(After(s, a, worth), o)
  {
    var s' := After(s, a, worth);
    StepFrame(s, a, worth, o);
    AtMostOne(s', worth, o);
    if o in s.db {
      StepRows(s, a, worth, o);
      if s.db[o].status != Success && s'.db[o].status == Success {
        Incurs(s, a, worth, o);
      } else if Owes(s, o) {
        var t :| t in s.pc && s.pc[t].Body? && s.pc[t].o == o && s.pc[t].stage.Written?;
        if a.Run? && a.t == t {
          Pays(s, a, worth, o);
        } else {
          hide After, CreditCount, DbInv, Enabled;
          assert t in s'.pc && s'.pc[t] == s.pc[t];
        }
      }
    } else {
      NewRow(s, a, worth, o);
    }
  }

  lemma AtMostOne(s: State, worth: int -> int, o: Order)
    requires DbInv(s, worth)
    ensures CreditCount(s.log, o) <= 1
  {
    hide CreditCount, LeftCount;
    assert OrderOk(s, o);
  }

  lemma NewRow(s: State, a: Action, worth: int -> int, o: Order)
    requires FreshOk(s) && Enabled(s, a) && o !in s.db
    ensures o in After(s, a, worth).db ==> After(s, a, worth).db[o].status == Pending
  {
    hide CreditCount, LeftCount;
  }

  lemma {:induction false} RunDue(states: seq<State>, actions: seq<Action>, worth: int -> int, k: nat, o: Order)
    requires IsRun(states, actions, worth) && AllAccepted(actions) && k < |states|
    requires o in states[0].db ==> states[0].db[o].status != Success
    ensures Due(states[k], o)
    decreases k
  {
    hide LockInv, DbInv, Init, Enabled, After, CreditCount, Owes;
    if k > 0 {
      assert actions[k - 1].Run? ==> actions[k - 1].ok;
      hide Due;
      RunDue(states, actions, worth, k - 1, o);
      RunKeeps(states, actions, worth, k - 1);
      RunKeeps(states, actions, worth, k);
      StepDue(states[k - 1], actions[k - 1], worth, o);
    } else {
      assert Init(states[0]);
    }
  }

  lemma {:induction false} CreditFound(log: seq<Event>, o: Order) returns (i: nat)
    requires CreditCount(log, o) > 0
    ensures i < |log| && log[i].Credited? && log[i].o == o
  {
    var n := |log| - 1;
    if log[n].Credited? && log[n].o == o { return n; }
    i := CreditFound(log[..n], o);
  }

  /** In every run whose writes are accepted: an Epay order that became paid has been credited
      exactly once, its worth to its own user, unless a thread is just about to; and when
      all threads are done, it has been. */
  lemma CreditPaid(states: seq<State>, actions: seq<Action>, worth: int -> int, k: nat, o: Order)
    requires IsRun(states, actions, worth) && AllAccepted(actions) && k < |states|
    requires o in states[0].db ==> states[0].db[o].status != Success
    requires o in states[k].db && states[k].db[o].provider == Epay && states[k].db[o].status == Success
    ensures var s := states[k];
            && (CreditCount(s.log, o) == 1 || Owes(s, o))
            && ((forall t | t in s.pc :: s.pc[t] == Idle) ==>
                  CreditCount(s.log, o) == 1 && exists i :: 0 <= i < |s.log| && s.log[i] == Credited(o, s.db[o].user, worth(s.db[o].amount)))
  {
    hide IsRun, AllAccepted, CreditCount;
    RunDue(states, actions, worth, k, o);
    var s := states[k];
    if CreditCount(s.log, o) == 1 {
      var i := CreditFound(s.log, o);
      AtMostOnceCredit(states, actions, worth, k, o);
      assert s.log[i] == Credited(o, s.db[o].user, worth(s.db[o].amount));
    }
  }

  // ----- jobs that are done

  /** A thread on its way with a job for a pending order of the job's provider: the order
      stays pending or is settled, and is settled once the thread leaves its handler. */
  ghost predicate OnItsWay(s: State, t: Thread, o: Order, job: Job) {
    && t in s.pc && o in s.db && s.db[o].provider == ProviderOf(job) && (s.db[o].status == Pending || s.db[o].status == Target(job))
    && match s.pc[t]
       case Idle => s.db[o].status == Target(job)
       case LockCreate(p, j) => p == o && j == job
       case LockLoad(p, j) => p == o && j == job
       case LockCount(p, j, _) => p == o && j == job
       case LockRelease(p, j, _) => p == o && j == job
       case LockWait(p, j, _) => p == o && j == job
       case Body(p, j, _, stage) => p == o && j == job && !(stage.HasRow? && stage.seen.None?) && (stage.Written? ==> s.db[o].status == Target(job))
       case UnlockLoad(_, _) => s.db[o].status == Target(job)
       case UnlockMu(_, _, _) => s.db[o].status == Target(job)
       case UnlockCreate(_, _) => s.db[o].status == Target(job)
       case UnlockCount(_, _) => s.db[o].status == Target(job)
       case UnlockDelete(_, _) => s.db[o].status == Target(job)
       case UnlockRelease(_) => s.db[o].status == Target(job)
  }

  lemma OthersStep(s: State, a: Action, worth: int -> int, t: Thread, o: Order, job: Job)
    requires DbInv(s, worth) && Enabled(s, a) && OnItsWay(s, t, o, job) && !(a.Run? && a.t == t)
    ensures OnItsWay(After(s, a, worth), t, o, job)
  {
    StepRows(s, a, worth, o);
    StepFrame(s, a, worth, o);
    hide DbInv, After, Enabled, CreditCount;
  }

  lemma OwnStep(s: State, a: Action, worth: int -> int, t: Thread, o: Order, job: Job)
    requires DbInv(s, worth) && Enabled(s, a) && OnItsWay(s, t, o, job) && a.Run? && a.t == t && a.ok && s.pc[t] != Idle
    ensures OnItsWay(After(s, a, worth), t, o, job)
  {
    hide BodyStep, OrderOk, CreditsOk;
    if s.pc[t].Body? {
      OwnBody(s, t, o, job, s.pc[t].m, s.pc[t].stage, worth);
    }
  }

  lemma OwnBody(s: State, t: Thread, o: Order, job: Job, m: Ref, stage: Stage, worth: int -> int)
    requires FreshOk(s) && OnItsWay(s, t, o, job) && s.pc[t] == Body(o, job, m, stage)
    ensures OnItsWay(BodyStep(s, t, o, job, m, stage, true, worth), t, o, job)
  {
    hide CreditCount, LeftCount;
  }

  lemma {:induction false} StaysOnItsWay(states: seq<State>, actions: seq<Action>, worth: int -> int, i: nat, k: nat, t: Thread, o: Order, job: Job)
    requires IsRun(states, actions, worth) && AllAccepted(actions) && i < k < |states|
    requires OnItsWay(states[i + 1], t, o, job)
    requires forall x | i < x < k :: t in states[x].pc && states[x].pc[t] != Idle
    ensures OnItsWay(states[k], t, o, job)
    decreases k - i
  {
    hide LockInv, DbInv, Init, Enabled, After, OnItsWay;
    if i + 1 < k {
      StaysOnItsWay(states, actions, worth, i, k - 1, t, o, job);
      RunKeeps(states, actions, worth, k - 1);
      if actions[k - 1].Run? && actions[k - 1].t == t {
        OwnStep(states[k - 1], actions[k - 1], worth, t, o, job);
      } else {
        OthersStep(states[k - 1], actions[k - 1], worth, t, o, job);
      }
    }
  }

  /** A thread takes up a job for a pending order of the job's provider, and is done with it:
      a notified Epay order is then a success, a failed Stripe payment a failure, whatever
      other threads did meanwhile. */
  lemma JobDone(states: seq<State>, actions: seq<Action>, worth: int -> int, i: nat, k: nat)
    requires IsRun(states, actions, worth) && AllAccepted(actions) && i < k < |states|
    requires var a := actions[i];
             && a.Run? && states[i].pc[a.t] == Idle && a.o in states[i].db
             && states[i].db[a.o].status == Pending && states[i].db[a.o].provider == (if a.job.EpayNotify? then Epay else Stripe)
             && (forall x | i < x < k :: a.t in states[x].pc && states[x].pc[a.t] != Idle)
             && a.t in states[k].pc && states[k].pc[a.t] == Idle
    ensures var a := actions[i];
            a.o in states[k].db && states[k].db[a.o].status == if a.job.EpayNotify? then Success else Failed
  {
    var a := actions[i];
    TakenUp(states[i], a, worth);
    StaysOnItsWay(states, actions, worth, i, k, a.t, a.o, a.job);
  }

  lemma TakenUp(s: State, a: Action, worth: int -> int)
    requires Enabled(s, a) && a.Run? && s.pc[a.t] == Idle && a.o in s.db && s.db[a.o].status == Pending && s.db[a.o].provider == ProviderOf(a.job)
    ensures OnItsWay(After(s, a, worth), a.t, a.o, a.job)
  {
  }
}
