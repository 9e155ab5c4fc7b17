// The account-transfer programs (ftxxfer, ftxblockchain, ftxrocket) as a state
// machine: any number of threads, one step per file operation, any random
// picks, over the lock machine of LockMachine.

module Bank {
  import opened Basics
  import opened LockSpec
  import LM = LockMachine

  const MAX_BALANCE := 9999999
  const RECORD := 16

  datatype Pc = Idle | Lock1 | Lock2 | ReadA | ReadB | Work | WriteA | WriteB | Append | Unlock2 | Unlock1

  datatype Txn = Txn(from: nat, to: nat, amount: int)

  // The local variables of transfer_thread, and the transfers it has written.
  datatype Thread = Thread(pc: Pc, left: nat, from: nat, to: nat, b0: int, b1: int,
                           amount: int, delta: int, done: seq<Txn>)

  datatype Line = Line(acct: nat, delta: int)
  datatype Entry = Entry(t: Tid, txn: Txn)

  // `chain` selects ftxblockchain, which appends to the ledger `lines`. `log`
  // is history: the transfers in the order of their second write.
  datatype State = State(locks: LM.State, bal: seq<int>, threads: seq<Thread>, lines: seq<Line>,
                         chain: bool, log: seq<Entry>)

  datatype Act = Pick(from: nat, to: nat) | Draw(amount: int) | Go | Wake

  function Rec(a: nat): (r: Range) { Range(RECORD * a, RECORD) }

  function Delta(b0: int, b1: int, amount: int): int {
    Least(Least(b0, amount), MAX_BALANCE - b1)
  }

  // What the balance field holds after writing `new`: a number of more than
  // seven characters is not written at all.
  predicate Fits(b: int) { -999999 <= b <= 9999999 }
  function Stored(old_: int, new_: int): int { if Fits(new_) then new_ else old_ }

  function Lower(th: Thread): nat { if th.from < th.to then th.from else th.to }
  function Upper(th: Thread): nat { if th.from < th.to then th.to else th.from }

  // The accounts a thread has locked.
  function Accts(th: Thread): (a: set<nat>) {
    match th.pc
    case Idle => {}
    case Lock1 => {}
    case Lock2 => {Lower(th)}
    case Unlock1 => {Lower(th)}
    case _ => {th.from, th.to}
  }

  ghost predicate ThreadOk(n: nat, th: Thread) {
    th.pc != Idle ==> th.from < n && th.to < n && th.from != th.to && th.left > 0
  }

  // The lock machine knows exactly the accounts the threads believe to hold.
  ghost predicate LocksAgree(s: State) {
    && LM.Inv(s.locks)
    && |s.locks.status| == |s.threads|
    && TableCovers(s.locks.tab, |s.bal|)
    && HoldsKnown(s.locks.held, s.threads)
    && AcctsHeld(s.locks.held, s.threads)
    && HeldOnce(s.locks.held)
    && ThreadsOk(|s.bal|, s.locks.status, s.threads)
  }

  ghost predicate TableCovers(tab: Table, n: nat)
    requires TableOk(tab)
  {
    forall a: nat | a < n :: InTable(tab, Rec(a))
  }

  ghost predicate HoldsKnown(held: seq<LM.Hold>, threads: seq<Thread>) {
    forall h | h in held :: h.t < |threads| && exists a | a in Accts(threads[h.t]) :: h.r == Rec(a)
  }

  ghost predicate AcctsHeld(held: seq<LM.Hold>, threads: seq<Thread>) {
    forall t: Tid, a: nat | t < |threads| && a in Accts(threads[t]) :: LM.Hold(t, Rec(a)) in held
  }

  ghost predicate HeldOnce(held: seq<LM.Hold>) {
    forall h | h in held :: multiset(held)[h] == 1
  }

  ghost predicate ThreadsOk(n: nat, status: seq<LM.Status>, threads: seq<Thread>)
    requires |status| == |threads|
  {
    forall t: Tid | t < |threads| :: ThreadOk(n, threads[t]) && StatusOk(status[t], threads[t])
  }

  function Wanted(th: Thread): nat {
    if th.pc == Lock1 then Lower(th) else Upper(th)
  }

  predicate StatusOk(st: LM.Status, th: Thread) {
    st.Running? || ((th.pc == Lock1 || th.pc == Lock2) && st.r == Rec(Wanted(th)))
  }

  ghost predicate Can(s: State, t: Tid, act: Act)
    requires LocksAgree(s)
  {
    && t < |s.threads|
    && var th := s.threads[t];
       match th.pc
       case Idle => act.Pick? && th.left > 0 && act.from < |s.bal| && act.to < |s.bal|
       case Lock1 => if s.locks.status[t].Asleep? then act.Wake? else act.Go?
       case Lock2 => if s.locks.status[t].Asleep? then act.Wake? else act.Go?
       case Work => act.Draw?
       case _ => act.Go?
  }

  function After(pc: Pc): Pc {
    match pc
    case Idle => Lock1
    case Lock1 => Lock2
    case Lock2 => ReadA
    case ReadA => ReadB
    case ReadB => Work
    case Work => WriteA
    case WriteA => WriteB
    case WriteB => Append
    case Append => Unlock2
    case Unlock2 => Unlock1
    case Unlock1 => Idle
  }

  ghost function Step(s: State, t: Tid, act: Act): (out: State)
    requires LocksAgree(s) && Can(s, t, act)
  {
    match s.threads[t].pc
    case Idle => PickStep(s, t, act.from, act.to)
    case Lock1 => LockStep(s, t)
    case Lock2 => LockStep(s, t)
    case ReadA => ReadAStep(s, t)
    case ReadB => ReadBStep(s, t)
    case Work => DrawStep(s, t, act.amount)
    case WriteA => WriteAStep(s, t)
    case WriteB => WriteBStep(s, t)
    case Append => AppendStep(s, t)
    case Unlock2 => Unlock2Step(s, t)
    case Unlock1 => Unlock1Step(s, t)
  }

  // Two equal picks are thrown away and drawn again.
  function PickStep(s: State, t: Tid, from: nat, to: nat): (out: State)
    requires t < |s.threads|
  {
    if from == to then s else Move(s, t, s.threads[t].(pc := Lock1, from := from, to := to))
  }

  // `t` runs with both its accounts inside the database.
  predicate InDb(s: State, t: Tid) {
    t < |s.threads| && s.threads[t].from < |s.bal| && s.threads[t].to < |s.bal|
  }

  function ReadAStep(s: State, t: Tid): (out: State)
    requires InDb(s, t)
  {
    Move(s, t, s.threads[t].(pc := ReadB, b0 := s.bal[s.threads[t].from]))
  }

  function ReadBStep(s: State, t: Tid): (out: State)
    requires InDb(s, t)
  {
    Move(s, t, s.threads[t].(pc := Work, b1 := s.bal[s.threads[t].to]))
  }

  function DrawStep(s: State, t: Tid, amount: int): (out: State)
    requires InDb(s, t)
  {
    var th := s.threads[t];
    var d := Delta(th.b0, th.b1, amount);
    Move(s, t, th.(pc := WriteA, amount := amount, delta := d, b0 := th.b0 - d, b1 := th.b1 + d))
  }

  function WriteAStep(s: State, t: Tid): (out: State)
    requires InDb(s, t)
  {
    var th := s.threads[t];
    Move(s, t, th.(pc := WriteB)).(bal := s.bal[th.from := Stored(s.bal[th.from], th.b0)])
  }

  function WriteBStep(s: State, t: Tid): (out: State)
    requires InDb(s, t)
  {
    var th := s.threads[t];
    var txn := Txn(th.from, th.to, th.amount);
    Move(s, t, th.(pc := if s.chain then Append else Unlock2, done := th.done + [txn]))
      .(bal := s.bal[th.to := Stored(s.bal[th.to], th.b1)], log := s.log + [Entry(t, txn)])
  }

  // The two lines io61_write gets in one call.
  function Report(th: Thread): (lines: seq<Line>) {
    [Line(th.from, -th.delta), Line(th.to, th.delta)]
  }

  function AppendStep(s: State, t: Tid): (out: State)
    requires InDb(s, t)
  {
    var th := s.threads[t];
    Move(s, t, th.(pc := Unlock2)).(lines := s.lines + Report(th))
  }

  // The guards are destroyed in reverse order.
  ghost function Unlock2Step(s: State, t: Tid): (out: State)
    requires LocksAgree(s) && t < |s.threads| && s.threads[t].pc == Unlock2
  {
    var th := s.threads[t];
    UnlockStep(s, t, Upper(th), th.(pc := Unlock1))
  }

  ghost function Unlock1Step(s: State, t: Tid): (out: State)
    requires LocksAgree(s) && t < |s.threads| && s.threads[t].pc == Unlock1
  {
    var th := s.threads[t];
    UnlockStep(s, t, Lower(th), th.(pc := Idle, left := th.left - 1))
  }

  function Move(s: State, t: Tid, th: Thread): State
    requires t < |s.threads|
  {
    s.(threads := s.threads[t := th])
  }

  // What the thread asks of the lock table while it wants an account.
  ghost function LockOp(s: State, t: Tid): (op: LM.Op)
    requires LocksAgree(s) && t < |s.threads|
  {
    match s.locks.status[t]
    case Running => LM.Lock(Rec(Wanted(s.threads[t])))
    case Asleep(_) => LM.SpuriousWake
    case Retrying(_) => LM.Retry
  }

  ghost function LockStep(s: State, t: Tid): (out: State)
    requires LocksAgree(s) && t < |s.threads| && (s.threads[t].pc == Lock1 || s.threads[t].pc == Lock2)
  {
    var th := s.threads[t];
    var locks := LM.Step(s.locks, t, LockOp(s, t));
    if locks.status[t].Running? then Move(s, t, th.(pc := After(th.pc))).(locks := locks)
    else s.(locks := locks)
  }

  ghost function UnlockStep(s: State, t: Tid, a: nat, th: Thread): (out: State)
    requires LocksAgree(s) && t < |s.threads| && s.locks.status[t].Running? && LM.Hold(t, Rec(a)) in s.locks.held
  {
    Move(s, t, th).(locks := LM.Step(s.locks, t, LM.Unlock(Rec(a))))
  }

  // ---- What a step changes ----

  // What the invariant says of one thread.
  lemma ThreadFacts(s: State, t: Tid)
    requires LocksAgree(s) && t < |s.threads|
    ensures |s.locks.status| == |s.threads|
    ensures ThreadOk(|s.bal|, s.threads[t]) && StatusOk(s.locks.status[t], s.threads[t])
    ensures forall a | a in Accts(s.threads[t]) :: LM.Hold(t, Rec(a)) in s.locks.held
  {
    hide LM.Inv;
  }

  lemma AllThreadsOk(s: State)
    requires LocksAgree(s)
    ensures forall t: Tid | t < |s.threads| :: ThreadOk(|s.bal|, s.threads[t])
  {
  }

  // s' differs from s in the locks and in thread t.
  predicate OnlyThread(s: State, t: Tid, s': State)
    requires t < |s.threads|
  {
    && |s'.threads| == |s.threads| && s'.threads == s.threads[t := s'.threads[t]]
    && s'.bal == s.bal && s'.log == s.log && s'.lines == s.lines && s'.chain == s.chain
  }

  lemma LockStepShape(s: State, t: Tid)
    requires LocksAgree(s) && t < |s.threads| && (s.threads[t].pc == Lock1 || s.threads[t].pc == Lock2)
    ensures var s', th := LockStep(s, t), s.threads[t];
            OnlyThread(s, t, s') && (s'.threads[t] == th || s'.threads[t] == th.(pc := After(th.pc)))
  {
    hide LocksAgree, LM.Inv, LM.Step;
    var s' := LockStep(s, t);
    assert s'.threads == s.threads || s'.threads == s.threads[t := s.threads[t].(pc := After(s.threads[t].pc))];
  }

  lemma UnlockStepShape(s: State, t: Tid, a: nat, th: Thread)
    requires LocksAgree(s) && t < |s.threads| && s.locks.status[t].Running? && LM.Hold(t, Rec(a)) in s.locks.held
    ensures OnlyThread(s, t, UnlockStep(s, t, a, th)) && UnlockStep(s, t, a, th).threads[t] == th
  {
    hide LocksAgree, LM.Inv, LM.Step;
  }

  // The steps that touch neither balances nor history, and where t is then.
  lemma QuietStepShape(s: State, t: Tid, act: Act)
    requires LocksAgree(s) && Can(s, t, act)
    requires s.threads[t].pc !in {WriteA, WriteB, Append}
    ensures OnlyThread(s, t, Step(s, t, act))
    ensures Step(s, t, act).threads[t].done == s.threads[t].done
    ensures Step(s, t, act).threads[t].pc == s.threads[t].pc || Step(s, t, act).threads[t].pc == After(s.threads[t].pc)
  {
    hide LocksAgree, LM.Inv, LM.Step, LockStep, UnlockStep;
    ThreadFacts(s, t);
    if s.threads[t].pc in {Lock1, Lock2} {
      LockStepShape(s, t);
    } else if s.threads[t].pc == Unlock1 {
      assert Lower(s.threads[t]) in Accts(s.threads[t]);
      UnlockStepShape(s, t, Lower(s.threads[t]), s.threads[t].(pc := Idle, left := s.threads[t].left - 1));
    } else if s.threads[t].pc == Unlock2 {
      assert Upper(s.threads[t]) in Accts(s.threads[t]);
      UnlockStepShape(s, t, Upper(s.threads[t]), s.threads[t].(pc := Unlock1));
    } else {
      assert s.threads == s.threads[t := s.threads[t]];
    }
  }

  // ---- The locks stay in agreement ----

  // Changing a thread without changing which accounts it holds.
  lemma SameAccts(held: seq<LM.Hold>, threads: seq<Thread>, t: Tid, th: Thread)
    requires t < |threads| && Accts(th) == Accts(threads[t])
    requires HoldsKnown(held, threads) && AcctsHeld(held, threads)
    ensures HoldsKnown(held, threads[t := th]) && AcctsHeld(held, threads[t := th])
  {
    var threads' := threads[t := th];
    forall h | h in held
      ensures h.t < |threads'| && exists a | a in Accts(threads'[h.t]) :: h.r == Rec(a)
    {
      var a :| a in Accts(threads[h.t]) && h.r == Rec(a);
      assert a in Accts(threads'[h.t]);
    }
    forall u: Tid, a: nat | u < |threads'| && a in Accts(threads'[u])
      ensures LM.Hold(u, Rec(a)) in held
    {
      assert a in Accts(threads[u]);
    }
  }

  lemma AcquiredHolds(held: seq<LM.Hold>, threads: seq<Thread>, t: Tid, th: Thread, a: nat)
    requires t < |threads| && a !in Accts(threads[t]) && Accts(th) == Accts(threads[t]) + {a}
    requires HoldsKnown(held, threads) && AcctsHeld(held, threads) && HeldOnce(held)
    ensures HoldsKnown(held + [LM.Hold(t, Rec(a))], threads[t := th])
    ensures AcctsHeld(held + [LM.Hold(t, Rec(a))], threads[t := th])
    ensures HeldOnce(held + [LM.Hold(t, Rec(a))])
  {
    var added := LM.Hold(t, Rec(a));
    var held', threads' := held + [added], threads[t := th];
    forall h | h in held'
      ensures h.t < |threads'| && exists b | b in Accts(threads'[h.t]) :: h.r == Rec(b)
    {
      if h in held {
        var b :| b in Accts(threads[h.t]) && h.r == Rec(b);
        assert b in Accts(threads'[h.t]);
      } else {
        assert a in Accts(threads'[t]);
      }
    }
    forall u: Tid, b: nat | u < |threads'| && b in Accts(threads'[u])
      ensures LM.Hold(u, Rec(b)) in held'
    {
      if u != t || b != a {
        assert b in Accts(threads[u]);
        assert LM.Hold(u, Rec(b)) in held;
      }
    }
    NotYetHeld(held, threads, t, a);
    assert HeldOnce(held') by {
      assert multiset(held') == multiset(held) + multiset{added};
    }
  }

  lemma NotYetHeld(held: seq<LM.Hold>, threads: seq<Thread>, t: Tid, a: nat)
    requires t < |threads| && a !in Accts(threads[t]) && HoldsKnown(held, threads)
    ensures LM.Hold(t, Rec(a)) !in held
  {
    assert forall b: nat :: Rec(a) == Rec(b) ==> a == b;
  }

  lemma ReleasedHolds(held: seq<LM.Hold>, threads: seq<Thread>, t: Tid, th: Thread, a: nat)
    requires t < |threads| && a in Accts(threads[t]) && Accts(th) == Accts(threads[t]) - {a}
    requires HoldsKnown(held, threads) && AcctsHeld(held, threads) && HeldOnce(held)
    ensures LM.Hold(t, Rec(a)) in held
    ensures HoldsKnown(LM.Remove(held, LM.Hold(t, Rec(a))), threads[t := th])
    ensures AcctsHeld(LM.Remove(held, LM.Hold(t, Rec(a))), threads[t := th])
    ensures HeldOnce(LM.Remove(held, LM.Hold(t, Rec(a))))
  {
    var gone := LM.Hold(t, Rec(a));
    assert gone in held;
    LM.RemoveOnlyOne(held, gone);
    var held', threads' := LM.Remove(held, gone), threads[t := th];
    forall h | h in held'
      ensures h.t < |threads'| && exists b | b in Accts(threads'[h.t]) :: h.r == Rec(b)
    {
      var b :| b in Accts(threads[h.t]) && h.r == Rec(b);
      assert b in Accts(threads'[h.t]) by { assert h != gone; }
    }
    forall u: Tid, b: nat | u < |threads'| && b in Accts(threads'[u])
      ensures LM.Hold(u, Rec(b)) in held'
    {
      assert b in Accts(threads[u]);
      if u == t {
        assert b in Accts(th) && b != a;
      }
    }
    assert HeldOnce(held') by {
      forall h | h in held' ensures multiset(held')[h] == 1 {}
    }
  }

  lemma MoveKeepsLocks(s: State, t: Tid, th: Thread)
    requires LocksAgree(s) && t < |s.threads|
    requires Accts(th) == Accts(s.threads[t]) && ThreadOk(|s.bal|, th) && StatusOk(s.locks.status[t], th)
    ensures LocksAgree(Move(s, t, th))
  {
    hide LM.Inv;
    SameAccts(s.locks.held, s.threads, t, th);
  }

  lemma GrantedKeepsLocks(s: State, t: Tid, locks: LM.State)
    requires LocksAgree(s) && t < |s.threads| && (s.threads[t].pc == Lock1 || s.threads[t].pc == Lock2)
    requires LM.Inv(locks) && TableOk(locks.tab) && TableCovers(locks.tab, |s.bal|) && |locks.status| == |s.threads|
    requires forall u: Tid | u < |s.threads| && u != t :: locks.status[u] == s.locks.status[u]
    requires locks.status[t].Running?
    requires locks.held == s.locks.held + [LM.Hold(t, Rec(Wanted(s.threads[t])))]
    ensures LocksAgree(Move(s, t, s.threads[t].(pc := After(s.threads[t].pc))).(locks := locks))
  {
    hide LM.Inv;
    var th, a := s.threads[t], Wanted(s.threads[t]);
    var th' := th.(pc := After(th.pc));
    assert ThreadOk(|s.bal|, th);
    AcquiredHolds(s.locks.held, s.threads, t, th', a);
  }

  lemma LockStepKeepsLocks(s: State, t: Tid)
    requires LocksAgree(s) && t < |s.threads| && (s.threads[t].pc == Lock1 || s.threads[t].pc == Lock2)
    ensures LocksAgree(LockStep(s, t))
  {
    hide LM.Inv, LM.Step, LocksAgree;
    var th, op, a := s.threads[t], LockOp(s, t), Wanted(s.threads[t]);
    ThreadFacts(s, t);
    LocksFacts(s);
    LockOpEnabled(s, t);
    LM.StepInv(s.locks, t, op);
    LM.LockOpShape(s.locks, t, op, Rec(a));
    var locks := LM.Step(s.locks, t, op);
    LM.InvTable(locks);
    SameTableCovers(s.locks.tab, locks.tab, |s.bal|);
    if locks.status[t].Running? {
      GrantedKeepsLocks(s, t, locks);
    } else {
      WaitingKeepsLocks(s, t, locks);
    }
  }

  lemma LocksFacts(s: State)
    requires LocksAgree(s)
    ensures LM.Inv(s.locks) && TableOk(s.locks.tab) && TableCovers(s.locks.tab, |s.bal|)
    ensures |s.locks.status| == |s.threads|
  {
  }

  lemma LockOpEnabled(s: State, t: Tid)
    requires LocksAgree(s) && t < |s.threads| && (s.threads[t].pc == Lock1 || s.threads[t].pc == Lock2)
    ensures LM.Inv(s.locks) && LM.Enabled(s.locks, t, LockOp(s, t))
  {
    ThreadFacts(s, t);
    LocksFacts(s);
  }

  lemma WaitingKeepsLocks(s: State, t: Tid, locks: LM.State)
    requires LocksAgree(s) && t < |s.threads| && (s.threads[t].pc == Lock1 || s.threads[t].pc == Lock2)
    requires LM.Inv(locks) && TableOk(locks.tab) && TableCovers(locks.tab, |s.bal|) && |locks.status| == |s.threads|
    requires forall u: Tid | u < |s.threads| && u != t :: locks.status[u] == s.locks.status[u]
    requires !locks.status[t].Running? && locks.status[t].r == Rec(Wanted(s.threads[t]))
    requires locks.held == s.locks.held
    ensures LocksAgree(s.(locks := locks))
  {
    hide LM.Inv;
  }

  lemma SameTableCovers(tab: Table, tab': Table, n: nat)
    requires TableOk(tab) && TableOk(tab') && tab.chunk == tab'.chunk && |tab.nlocked| == |tab'.nlocked|
    requires TableCovers(tab, n)
    ensures TableCovers(tab', n)
  {
    forall a: nat | a < n
      ensures InTable(tab', Rec(a))
    {
      assert InTable(tab, Rec(a));
    }
  }

  lemma WakeAllKeepsThreadsOk(n: nat, status: seq<LM.Status>, threads: seq<Thread>, t: Tid, th: Thread)
    requires |status| == |threads| && t < |threads| && ThreadsOk(n, status, threads)
    requires ThreadOk(n, th) && status[t].Running?
    ensures ThreadsOk(n, LM.WakeAll(status), threads[t := th])
  {
    var status', threads' := LM.WakeAll(status), threads[t := th];
    forall u: Tid | u < |threads'|
      ensures ThreadOk(n, threads'[u]) && StatusOk(status'[u], threads'[u])
    {
      assert ThreadOk(n, threads[u]) && StatusOk(status[u], threads[u]);
    }
  }

  lemma UnlockStepKeepsLocks(s: State, t: Tid, a: nat, th: Thread)
    requires LocksAgree(s) && t < |s.threads| && a in Accts(s.threads[t]) && s.locks.status[t].Running?
    requires ThreadOk(|s.bal|, th) && Accts(th) == Accts(s.threads[t]) - {a}
    ensures LM.Hold(t, Rec(a)) in s.locks.held
    ensures LocksAgree(UnlockStep(s, t, a, th))
  {
    hide LM.Inv, LM.Step;
    var op := LM.Unlock(Rec(a));
    ReleasedHolds(s.locks.held, s.threads, t, th, a);
    LM.StepInv(s.locks, t, op);
    LocksFacts(s);
    LM.InvTable(LM.Step(s.locks, t, op));
    LM.UnlockShape(s.locks, t, Rec(a));
    SameTableCovers(s.locks.tab, LM.Step(s.locks, t, op).tab, |s.bal|);
    WakeAllKeepsThreadsOk(|s.bal|, s.locks.status, s.threads, t, th);
  }

  lemma StepKeepsLocks(s: State, t: Tid, act: Act)
    requires LocksAgree(s) && Can(s, t, act)
    ensures LocksAgree(Step(s, t, act))
  {
    hide LocksAgree, LM.Inv, LM.Step;
    match s.threads[t].pc
    case Lock1 =>
      LockStepKeepsLocks(s, t);
    case Lock2 =>
      LockStepKeepsLocks(s, t);
    case Unlock1 =>
      Unlock1KeepsLocks(s, t);
    case Unlock2 =>
      Unlock2KeepsLocks(s, t);
    case _ =>
      QuietStepKeepsLocks(s, t, act);
  }

  lemma Unlock1KeepsLocks(s: State, t: Tid)
    requires LocksAgree(s) && t < |s.threads| && s.threads[t].pc == Unlock1
    ensures LocksAgree(Unlock1Step(s, t))
  {
    hide LocksAgree, LM.Inv;
    var th := s.threads[t];
    ThreadFacts(s, t);
    UnlockStepKeepsLocks(s, t, Lower(th), th.(pc := Idle, left := th.left - 1));
  }

  lemma Unlock2KeepsLocks(s: State, t: Tid)
    requires LocksAgree(s) && t < |s.threads| && s.threads[t].pc == Unlock2
    ensures LocksAgree(Unlock2Step(s, t))
  {
    hide LocksAgree, LM.Inv;
    var th := s.threads[t];
    ThreadFacts(s, t);
    UnlockStepKeepsLocks(s, t, Upper(th), th.(pc := Unlock1));
  }

  lemma QuietStepKeepsLocks(s: State, t: Tid, act: Act)
    requires LocksAgree(s) && Can(s, t, act)
    requires s.threads[t].pc !in {Lock1, Lock2, Unlock1, Unlock2}
    ensures LocksAgree(Step(s, t, act))
  {
    hide LocksAgree, LM.Inv;
    var s' := Step(s, t, act);
    ThreadFacts(s, t);
    assert s'.threads == s.threads[t := s'.threads[t]];
    assert s'.locks == s.locks && |s'.bal| == |s.bal|;
    assert Accts(s'.threads[t]) == Accts(s.threads[t]);
    MoveKeepsLocks(s, t, s'.threads[t]);
    SameLocks(Move(s, t, s'.threads[t]), s');
  }

  lemma SameLocks(s: State, s': State)
    requires LocksAgree(s) && s'.locks == s.locks && s'.threads == s.threads && |s'.bal| == |s.bal|
    ensures LocksAgree(s')
  {
    hide LM.Inv;
  }

  // No two threads are ever inside a transfer on the same account.
  lemma Exclusive(s: State, t: Tid, u: Tid)
    requires LocksAgree(s) && t < |s.threads| && u < |s.threads| && t != u
    ensures Accts(s.threads[t]) !! Accts(s.threads[u])
  {
    forall a | a in Accts(s.threads[t]) && a in Accts(s.threads[u])
      ensures false
    {
      LM.RangesDisjoint(s.locks, LM.Hold(t, Rec(a)), LM.Hold(u, Rec(a)), RECORD * a);
      assert Has(Rec(a), RECORD * a);
    }
  }
}
