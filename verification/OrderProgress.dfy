/** The work of the order locks ends: each step of a thread at work brings it nearer to
    being done, whatever the others do. */
module OrderProgress {
  import opened OrderLocks

  /** The most steps a thread can still need. */
  function ToDo(p: PC): nat {
    match p
    case Idle => 0
    case LockCreate(_, _) => 14
    case LockLoad(_, _) => 13
    case LockCount(_, _, _) => 12
    case LockRelease(_, _, _) => 11
    case LockWait(_, _, _) => 10
    case Body(_, _, _, stage) => (match stage case Reading => 9 case HasRow(_) => 8 case Written(_) => 7)
    case UnlockLoad(_, _) => 6
    case UnlockMu(_, _, _) => 5
    case UnlockCreate(_, _) => 4
    case UnlockCount(_, _) => 3
    case UnlockDelete(_, _) => 2
    case UnlockRelease(_) => 1
  }

  ghost function Work(pc: map<Thread, PC>): nat
    decreases |pc|
  {
    if pc == map[] then 0
    else
      var t :| t in pc;
      ToDo(pc[t]) + Work(pc - {t})
  }

  lemma {:induction false} WorkWithout(pc: map<Thread, PC>, t: Thread)
    requires t in pc
    ensures Work(pc) == ToDo(pc[t]) + Work(pc - {t})
    decreases |pc|
  {
    hide ToDo;
    var u :| u in pc && Work(pc) == ToDo(pc[u]) + Work(pc - {u});
    if u != t {
      WorkWithout(pc - {u}, t);
      WorkWithout(pc - {t}, u);
      assert pc - {u} - {t} == pc - {t} - {u};
    }
  }

  lemma WorkMoved(pc: map<Thread, PC>, t: Thread, p: PC)
    requires t in pc
    ensures Work(pc[t := p]) == Work(pc) - ToDo(pc[t]) + ToDo(p)
  {
    hide ToDo, Work;
    WorkWithout(pc, t);
    WorkWithout(pc[t := p], t);
    assert pc[t := p] - {t} == pc - {t};
  }

  /** At most fourteen steps a thread. */
  lemma {:induction false} WorkBounded(pc: map<Thread, PC>)
    ensures Work(pc) <= 14 * |pc|
    decreases |pc|
  {
    if pc != map[] {
      var t :| t in pc;
      WorkWithout(pc, t);
      WorkBounded(pc - {t});
      assert |pc - {t}| == |pc| - 1;
    }
  }

  /** A thread has moved, and no other; from a place at work, nearer to its end. */
  ghost predicate Moved(pc: map<Thread, PC>, t: Thread, pc': map<Thread, PC>) {
    t in pc && t in pc' && pc' == pc[t := pc'[t]] && (pc[t] != Idle ==> ToDo(pc'[t]) < ToDo(pc[t]))
  }

  lemma GoMoves(s: State, t: Thread, p: PC)
    requires t in s.pc && (s.pc[t] != Idle ==> ToDo(p) < ToDo(s.pc[t]))
    ensures Moved(s.pc, t, Go(s, t, p).pc)
  {
  }

  lemma BodyMoves(s: State, t: Thread, o: Order, job: Job, m: Ref, stage: Stage, ok: bool, worth: int -> int)
    requires t in s.pc && s.pc[t] == Body(o, job, m, stage)
    ensures Moved(s.pc, t, BodyStep(s, t, o, job, m, stage, ok, worth).pc)
  {
    hide Moved;
    var s' := BodyStep(s, t, o, job, m, stage, ok, worth);
    GoMoves(s, t, s'.pc[t]);
  }

  lemma StepMoves(s: State, a: Action, worth: int -> int)
    requires a.Run? && Enabled(s, a)
    ensures Moved(s.pc, a.t, After(s, a, worth).pc)
  {
    hide BodyStep, Moved;
    if s.pc[a.t].Body? {
      BodyMoves(s, a.t, s.pc[a.t].o, s.pc[a.t].job, s.pc[a.t].m, s.pc[a.t].stage, a.ok, worth);
    } else {
      OtherMoves(s, a, worth);
    }
  }

  lemma OtherMoves(s: State, a: Action, worth: int -> int)
    requires a.Run? && Enabled(s, a) && !s.pc[a.t].Body?
    ensures Moved(s.pc, a.t, After(s, a, worth).pc)
  {
    hide BodyStep, Moved;
    var t := a.t;
    match s.pc[t]
    case Idle => GoMoves(s, t, LockCreate(a.o, a.job));
    case LockCreate(o, job) => GoMoves(s, t, LockLoad(o, job));
    case LockLoad(o, job) => GoMoves(s, t, LockCount(o, job, if o in s.table then s.table[o] else a.spare));
    case LockCount(o, job, m) => GoMoves(s, t, LockRelease(o, job, m));
    case LockRelease(o, job, m) => GoMoves(s, t, LockWait(o, job, m));
    case LockWait(o, job, m) => GoMoves(s, t, Body(o, job, m, Reading));
    case UnlockLoad(o, m) => GoMoves(s, t, if o in s.table then UnlockMu(o, m, s.table[o]) else Idle);
    case UnlockMu(o, _, found) => GoMoves(s, t, UnlockCreate(o, found));
    case UnlockCreate(o, m) => GoMoves(s, t, UnlockCount(o, m));
    case UnlockCount(o, m) => GoMoves(s, t, UnlockDelete(o, m));
    case UnlockDelete(o, _) => GoMoves(s, t, UnlockRelease(o));
    case UnlockRelease(_) => GoMoves(s, t, Idle);
  }

  /** Every step of a thread at work takes away from the work of all. */
  lemma WorkFalls(s: State, a: Action, worth: int -> int)
    requires a.Run? && Enabled(s, a) && s.pc[a.t] != Idle
    ensures Work(After(s, a, worth).pc) < Work(s.pc)
  {
    hide Enabled, After, ToDo, Work;
    StepMoves(s, a, worth);
    WorkMoved(s.pc, a.t, After(s, a, worth).pc[a.t]);
  }

  /** A run, from wherever, in which no idle thread takes up new work. */
  ghost predicate Drains(states: seq<State>, actions: seq<Action>, worth: int -> int) {
    && |states| == |actions| + 1
    && forall i | 0 <= i < |actions| ::
         && Enabled(states[i], actions[i]) && states[i + 1] == After(states[i], actions[i], worth)
         && (actions[i].Run? ==> states[i].pc[actions[i].t] != Idle)
  }

  function Runs(actions: seq<Action>): nat {
    if actions == [] then 0 else Runs(actions[..|actions| - 1]) + if actions[|actions| - 1].Run? then 1 else 0
  }

  /** Such a run has no more thread steps than there was work, and keeps the lock invariant. */
  lemma {:induction false} DrainBounded(states: seq<State>, actions: seq<Action>, worth: int -> int)
    requires Drains(states, actions, worth) && LockInv(states[0])
    ensures LockInv(states[|actions|]) && Runs(actions) + Work(states[|actions|].pc) <= Work(states[0].pc)
    decreases |actions|
  {
    hide LockInv, Enabled, After, Work;
    if actions != [] {
      var n := |actions| - 1;
      DrainBounded(states[..n + 1], actions[..n], worth);
      StepKeepsLocks(states[n], actions[n], worth);
      if actions[n].Run? {
        WorkFalls(states[n], actions[n], worth);
      } else {
        InsertMoves(states[n], actions[n], worth);
      }
    }
  }

  lemma EnabledThere(s: State, a: Action)
    requires a.Run? && Enabled(s, a)
    ensures a.t in s.pc
  {
  }

  lemma InsertMoves(s: State, a: Action, worth: int -> int)
    requires a.Insert? && Enabled(s, a)
    ensures After(s, a, worth).pc == s.pc
  {
  }

  /** When no thread at work can step any more, all are done and the table is empty. */
  lemma DrainedEmpty(states: seq<State>, actions: seq<Action>, worth: int -> int)
    requires Drains(states, actions, worth) && LockInv(states[0])
    requires var s := states[|actions|];
             forall a: Action | a.Run? && a.t in s.pc && s.pc[a.t] != Idle :: !Enabled(s, a)
    ensures Runs(actions) <= 14 * |states[0].pc|
    ensures var s := states[|actions|];
            s.create.None? && s.table == map[] && forall t | t in s.pc :: s.pc[t] == Idle
  {
    DrainBounded(states, actions, worth);
    hide LockInv, Enabled, Work, Drains;
    WorkBounded(states[0].pc);
    var s := states[|actions|];
    forall t | t in s.pc ensures s.pc[t] == Idle {
      if s.pc[t] != Idle {
        var a := NoDeadlock(s, t);
        EnabledThere(s, a);
      }
    }
    QuiescentEmpty(s);
  }
}
