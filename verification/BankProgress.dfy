// Deadlock freedom of the transfers for any chunk size, even when accounts
// share or straddle lock chunks.

module BankProgress {
  import opened LockSpec
  import opened Bank
  import opened BankSerial
  import opened BankMoney
  import LM = LockMachine

  predicate Done(th: Thread) { th.pc == Idle && th.left == 0 }

  // Steps done inside the current transfer.
  function Position(pc: Pc): nat {
    match pc
    case Idle => 0
    case Lock1 => 1
    case Lock2 => 2
    case ReadA => 3
    case ReadB => 4
    case Work => 5
    case WriteA => 6
    case WriteB => 7
    case Append => 8
    case Unlock2 => 9
    case Unlock1 => 10
  }

  function Todo(th: Thread): int { 11 * th.left - Position(th.pc) }

  function Todos(threads: seq<Thread>): seq<int> {
    seq(|threads|, i requires 0 <= i < |threads| => Todo(threads[i]))
  }

  // The work left in the whole system.
  function Total(s: State): int { Sum(Todos(s.threads)) }

  lemma TodosUpdate(threads: seq<Thread>, t: Tid, th: Thread)
    requires t < |threads|
    ensures Sum(Todos(threads[t := th])) == Sum(Todos(threads)) - Todo(threads[t]) + Todo(th)
  {
    SumUpdate(Todos(threads), t, Todo(th));
    assert Todos(threads[t := th]) == Todos(threads)[t := Todo(th)];
  }

  // The steps that get nowhere: waking up without the lock, trying for a
  // locked range, throwing away two equal picks.
  ghost predicate Idles(s: State, t: Tid, act: Act)
    requires LocksAgree(s) && Can(s, t, act)
  {
    var th := s.threads[t];
    match th.pc
    case Idle => act.from == act.to
    case Lock1 => act.Wake? || !InTable(s.locks.tab, Rec(Wanted(th))) || Conflict(s.locks.tab, t, Rec(Wanted(th)))
    case Lock2 => act.Wake? || !InTable(s.locks.tab, Rec(Wanted(th))) || Conflict(s.locks.tab, t, Rec(Wanted(th)))
    case _ => false
  }

  lemma TryingStep(s: State, t: Tid, act: Act)
    requires LocksAgree(s) && Can(s, t, act) && s.threads[t].pc in {Lock1, Lock2}
    ensures Step(s, t, act).threads ==
            if Idles(s, t, act) then s.threads
            else s.threads[t := s.threads[t].(pc := After(s.threads[t].pc))]
  {
    hide LocksAgree, LM.Inv, LM.Step;
    var th := s.threads[t];
    ThreadFacts(s, t);
    LocksFacts(s);
    LockOpEnabled(s, t);
    LM.LockOpShape(s.locks, t, LockOp(s, t), Rec(Wanted(th)));
  }

  // Every step lowers the total, except the ones that get nowhere.
  lemma StepLowersTotal(s: State, t: Tid, act: Act)
    requires LocksAgree(s) && Can(s, t, act)
    ensures Total(Step(s, t, act)) <= Total(s)
    ensures Total(Step(s, t, act)) == Total(s) <==> Idles(s, t, act)
  {
    hide LocksAgree;
    var s' := Step(s, t, act);
    var th := s.threads[t];
    if th.pc in {Lock1, Lock2} {
      TryingStep(s, t, act);
      TodosUpdate(s.threads, t, th.(pc := After(th.pc)));
    } else if !Idles(s, t, act) {
      MoverShape(s, t, act);
      TodosUpdate(s.threads, t, s'.threads[t]);
    }
  }

  ghost predicate MovedOn(s: State, t: Tid, s': State)
    requires t < |s.threads|
  {
    && |s'.threads| == |s.threads| && s'.threads == s.threads[t := s'.threads[t]]
    && Todo(s'.threads[t]) < Todo(s.threads[t])
  }

  lemma MoverShape(s: State, t: Tid, act: Act)
    requires LocksAgree(s) && Can(s, t, act) && s.threads[t].pc !in {Lock1, Lock2} && !Idles(s, t, act)
    ensures MovedOn(s, t, Step(s, t, act))
  {
    hide LocksAgree, LM.Inv, LM.Step, UnlockStep;
    var th := s.threads[t];
    ThreadFacts(s, t);
    if th.pc == Unlock1 {
      assert Lower(th) in Accts(th);
      UnlockStepShape(s, t, Lower(th), th.(pc := Idle, left := th.left - 1));
    } else if th.pc == Unlock2 {
      assert Upper(th) in Accts(th);
      UnlockStepShape(s, t, Upper(th), th.(pc := Unlock1));
    }
  }

  ghost predicate HighestLocked(tab: Table, i: nat)
    requires TableOk(tab)
  {
    && i < |tab.nlocked| && tab.nlocked[i] > 0
    && forall j: nat | i < j < |tab.nlocked| :: tab.nlocked[j] == 0
  }

  // Whoever holds the highest locked chunk finds its second account free.
  lemma HighestOwnerNotBlocked(s: State, i: nat) returns (t: Tid)
    requires LocksAgree(s) && HighestLocked(s.locks.tab, i)
    ensures t == s.locks.tab.owner[i] && t < |s.threads| && s.threads[t].pc !in {Idle, Lock1}
    ensures s.threads[t].pc == Lock2 ==>
              var r := Rec(Upper(s.threads[t]));
              InTable(s.locks.tab, r) && !Conflict(s.locks.tab, t, r)
  {
    hide LocksAgree, LM.Inv, Touches, Conflict;
    var tab := s.locks.tab;
    LocksFacts(s);
    var h := HolderOf(s.locks, i);
    t := h.t;
    var a := HeldAccount(s, h);
    var th := s.threads[t];
    ThreadFacts(s, t);
    if th.pc == Lock2 {
      assert InTable(tab, Rec(Upper(th)));
      HigherAccountFree(tab, t, a, Upper(th), i);
    }
  }

  lemma HolderOf(l: LM.State, i: nat) returns (h: LM.Hold)
    requires LM.Inv(l) && i < |l.tab.nlocked| && l.tab.nlocked[i] > 0
    ensures h in l.held && LM.Covers(l.tab.chunk, h.r, i) && l.tab.owner[i] == h.t
  {
    assert LM.Count(l.held, l.tab.chunk, i) > 0;
    h :| h in l.held && LM.Covers(l.tab.chunk, h.r, i);
  }

  lemma HeldAccount(s: State, h: LM.Hold) returns (a: nat)
    requires LocksAgree(s) && h in s.locks.held
    ensures h.t < |s.threads| && a in Accts(s.threads[h.t]) && h.r == Rec(a)
  {
    hide LM.Inv;
    a :| a in Accts(s.threads[h.t]) && h.r == Rec(a);
  }

  // A later account shares at most chunk i with an earlier one touching i.
  lemma HigherAccountFree(tab: Table, t: Tid, a: nat, b: nat, i: nat)
    requires TableOk(tab) && HighestLocked(tab, i) && tab.owner[i] == t
    requires a < b && Touches(tab.chunk, Rec(a), i) && InTable(tab, Rec(b))
    ensures !Conflict(tab, t, Rec(b))
  {
    DivMono(RECORD * a + RECORD - 1, RECORD * b, tab.chunk);
    forall j: nat | j < |tab.nlocked| && Touches(tab.chunk, Rec(b), j)
      ensures !Foreign(tab, t, j)
    {
      assert j == i || tab.nlocked[j] == 0;
    }
  }

  lemma FindHighest(tab: Table, n: nat) returns (i: nat)
    requires TableOk(tab) && n <= |tab.nlocked|
    requires forall j: nat | n <= j < |tab.nlocked| :: tab.nlocked[j] == 0
    requires exists j: nat | j < |tab.nlocked| :: tab.nlocked[j] > 0
    ensures HighestLocked(tab, i)
  {
    if tab.nlocked[n - 1] > 0 {
      i := n - 1;
    } else {
      i := FindHighest(tab, n - 1);
    }
  }

  // A thread that is not waiting can always go on.
  lemma NotWaitingMoves(s: State, t: Tid) returns (act: Act)
    requires LocksAgree(s) && t < |s.threads| && |s.bal| >= 2
    requires !Done(s.threads[t]) && s.threads[t].pc !in {Lock1, Lock2}
    ensures Can(s, t, act) && !Idles(s, t, act)
  {
    assert ThreadOk(|s.bal|, s.threads[t]);
    match s.threads[t].pc
    case Idle => act := Pick(0, 1);
    case Work => act := Draw(0);
    case _ => act := Go;
  }

  // A waiting thread with no conflict is awake and gets the lock.
  lemma UnblockedMoves(s: State, t: Tid)
    requires LocksAgree(s) && t < |s.threads| && s.threads[t].pc in {Lock1, Lock2}
    requires InTable(s.locks.tab, Rec(Wanted(s.threads[t])))
    requires !Conflict(s.locks.tab, t, Rec(Wanted(s.threads[t])))
    ensures Can(s, t, Go) && !Idles(s, t, Go)
  {
    assert StatusOk(s.locks.status[t], s.threads[t]);
    if s.locks.status[t].Asleep? {
      assert false;
    }
  }

  // Some unfinished thread can always take a step that counts.
  lemma SomebodyMoves(s: State, u: Tid) returns (t: Tid, act: Act)
    requires LocksAgree(s) && |s.bal| >= 2 && u < |s.threads| && !Done(s.threads[u])
    ensures Can(s, t, act) && !Idles(s, t, act)
  {
    if s.threads[u].pc !in {Lock1, Lock2} {
      t := u;
      act := NotWaitingMoves(s, t);
    } else if exists j: nat | j < |s.locks.tab.nlocked| :: s.locks.tab.nlocked[j] > 0 {
      var i := FindHighest(s.locks.tab, |s.locks.tab.nlocked|);
      t := HighestOwnerNotBlocked(s, i);
      if s.threads[t].pc == Lock2 {
        act := Go;
        UnblockedMoves(s, t);
      } else {
        act := NotWaitingMoves(s, t);
      }
    } else {
      t, act := u, Go;
      assert ThreadOk(|s.bal|, s.threads[u]);
      assert InTable(s.locks.tab, Rec(Wanted(s.threads[u])));
      UnblockedMoves(s, u);
    }
  }

  // In every state of every run either all threads are done or one of them
  // can take a step that lowers the total, which never grows and starts at 11
  // steps per transfer.
  lemma DeadlockFree(chunk: nat, nchunks: nat, bal: seq<int>, nthreads: nat, nops: nat, chain: bool, run: seq<Event>)
    requires chunk > 0 && |bal| >= 2
    requires forall a: nat | a < |bal| :: LastChunk(chunk, Rec(a)) < nchunks
    ensures Inv(Start(chunk, nchunks, bal, nthreads, nops, chain), bal)
    ensures var out := Exec(Start(chunk, nchunks, bal, nthreads, nops, chain), run);
            out.Reached? ==>
              && 0 <= Total(out.s) <= 11 * nops * nthreads
              && ((forall t: Tid | t < |out.s.threads| :: out.s.threads[t].pc == Idle && out.s.threads[t].left == 0)
                  || exists t: Tid, act: Act :: Can(out.s, t, act) && Total(Step(out.s, t, act)) < Total(out.s))
  {
    StartInv(chunk, nchunks, bal, nthreads, nops, chain);
    var s := Start(chunk, nchunks, bal, nthreads, nops, chain);
    var out := Exec(s, run);
    if out.Reached? {
      RunInv(s, bal, run);
      StartTotal(s, nops);
      TotalNeverGrows(s, bal, run);
      TotalNonNegative(out.s);
      if u: Tid :| u < |out.s.threads| && !Done(out.s.threads[u]) {
        var t, act := SomebodyMoves(out.s, u);
        StepLowersTotal(out.s, t, act);
      }
    }
  }

  lemma {:induction false} TotalNeverGrows(s: State, init: seq<int>, run: seq<Event>)
    requires Inv(s, init)
    ensures Exec(s, run).Reached? ==> Total(Exec(s, run).s) <= Total(s)
    decreases |run|
  {
    if run != [] && Can(s, run[0].t, run[0].act) {
      StepInv(s, init, run[0].t, run[0].act);
      StepLowersTotal(s, run[0].t, run[0].act);
      TotalNeverGrows(Step(s, run[0].t, run[0].act), init, run[1..]);
    }
  }

  lemma TotalNonNegative(s: State)
    requires LocksAgree(s)
    ensures Total(s) >= 0
  {
    forall i | 0 <= i < |s.threads|
      ensures Todo(s.threads[i]) >= 0
    {
      assert ThreadOk(|s.bal|, s.threads[i]);
    }
    NonNegativeSum(Todos(s.threads));
  }

  lemma {:induction false} NonNegativeSum(xs: seq<int>)
    requires forall i | 0 <= i < |xs| :: xs[i] >= 0
    ensures Sum(xs) >= 0
  {
    if xs != [] { NonNegativeSum(xs[..|xs| - 1]); }
  }

  lemma StartTotal(s: State, nops: nat)
    requires forall t: Tid | t < |s.threads| :: s.threads[t].pc == Idle && s.threads[t].left == nops
    ensures Total(s) == 11 * nops * |s.threads|
  {
    ConstantSum(Todos(s.threads), 11 * nops);
  }

  lemma {:induction false} ConstantSum(xs: seq<int>, c: int)
    requires forall i | 0 <= i < |xs| :: xs[i] == c
    ensures Sum(xs) == c * |xs|
  {
    if xs != [] { ConstantSum(xs[..|xs| - 1], c); }
  }
}
