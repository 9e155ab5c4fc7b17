// What transfers do, told without the program's own formulas: how much money
// one of them moves, which transfers a thread makes, and what the ledger says.

module BankLaws {
  import opened LockSpec
  import opened Bank
  import opened BankSerial
  import opened BankMoney
  import LM = LockMachine

  // ---- One transfer ----

  // Both balances can take the amount.
  predicate CanMove(bal: seq<int>, x: Txn) {
    && x.from < |bal| && x.to < |bal|
    && 0 <= bal[x.from] - x.amount <= 9999999 && 0 <= bal[x.to] + x.amount <= 9999999
  }

  // The amount when both accounts can take it, and otherwise, for an amount
  // that is not negative, as much of it as empties one account or fills the
  // other; nothing else changes.
  ghost predicate Moved(bal: seq<int>, x: Txn, out: seq<int>) {
    && x.from < |bal| && x.to < |bal| && x.from != x.to && |out| == |bal|
    && (forall a: nat | a < |bal| && a != x.from && a != x.to :: out[a] == bal[a])
    && (CanMove(bal, x) ==> out[x.from] == bal[x.from] - x.amount && out[x.to] == bal[x.to] + x.amount)
    && (x.amount >= 0 ==>
          && out[x.from] + out[x.to] == bal[x.from] + bal[x.to]
          && 0 <= bal[x.from] - out[x.from] <= x.amount
          && (out[x.from] == bal[x.from] - x.amount || out[x.from] == 0 || out[x.to] == 9999999))
  }

  // For every amount, however negative: the most that is at most the amount,
  // empties no account and overfills none; a number of more than seven
  // characters is not written.
  ghost predicate Takes(bal: seq<int>, x: Txn, out: seq<int>, d: int)
    requires x.from < |bal| == |out| && x.to < |bal|
  {
    && d <= x.amount && d <= bal[x.from] && d <= 9999999 - bal[x.to]
    && (d == x.amount || d == bal[x.from] || d == 9999999 - bal[x.to])
    && out[x.from] == (if -999999 <= bal[x.from] - d <= 9999999 then bal[x.from] - d else bal[x.from])
    && out[x.to] == (if -999999 <= bal[x.to] + d <= 9999999 then bal[x.to] + d else bal[x.to])
  }

  lemma SerialTakes(bal: seq<int>, x: Txn) returns (d: int)
    requires x.from < |bal| && x.to < |bal| && x.from != x.to
    ensures Takes(bal, x, Serial(bal, x), d)
  {
    d := if x.amount <= bal[x.from] && x.amount <= 9999999 - bal[x.to] then x.amount
         else if bal[x.from] <= 9999999 - bal[x.to] then bal[x.from] else 9999999 - bal[x.to];
  }

  lemma SerialMoves(bal: seq<int>, x: Txn)
    requires x.from < |bal| && x.to < |bal| && x.from != x.to
    requires 0 <= bal[x.from] <= 9999999 && 0 <= bal[x.to] <= 9999999
    ensures Moved(bal, x, Serial(bal, x))
    ensures x.amount >= 0 || CanMove(bal, x) ==>
              forall a: nat | a < |bal| && 0 <= bal[a] <= 9999999 :: 0 <= Serial(bal, x)[a] <= 9999999
  {
  }

  // ---- The transfers of a run one after the other ----

  // A state of the balances before each transfer and after the last one.
  ghost predicate History(states: seq<seq<int>>, order: seq<Entry>) {
    && |states| == |order| + 1
    && forall k | 0 <= k < |order| :: Moved(states[k], order[k].txn, states[k + 1])
  }

  // A step adds at most the transfer whose second write it is.
  lemma StepHistory(s: State, init: seq<int>, t: Tid, act: Act, states: seq<seq<int>>) returns (next: seq<seq<int>>)
    requires Inv(s, init) && Money(s, init) && Can(s, t, act)
    requires History(states, s.log) && states[|s.log|] == Replay(init, s.log)
    ensures var log := Step(s, t, act).log; History(next, log) && next[|log|] == Replay(init, log) && next[0] == states[0]
  {
    hide LocksAgree, DataAgrees, Serial, Moved, LM.Inv, LM.Step, LockStep, UnlockStep, WritesInRange, LedgerAgrees, NeverAppends;
    ThreadFacts(s, t);
    var th, log := s.threads[t], Step(s, t, act).log;
    next := states;
    if th.pc == WriteB {
      var x := Txn(th.from, th.to, th.amount);
      ReplayMore(init, s.log, Entry(t, x));
      SerialMoves(Replay(init, s.log), x);
      next := states + [Replay(init, log)];
    } else if th.pc !in {WriteA, Append} {
      QuietStepShape(s, t, act);
    }
  }

  lemma {:induction false} RunHistory(s: State, init: seq<int>, run: seq<Event>, states: seq<seq<int>>) returns (all: seq<seq<int>>)
    requires Inv(s, init) && Money(s, init) && SafeRun(s, run)
    requires History(states, s.log) && states[|s.log|] == Replay(init, s.log)
    ensures Exec(s, run).Reached? ==>
              var log := Exec(s, run).s.log; History(all, log) && all[|log|] == Replay(init, log) && all[0] == states[0]
    decreases |run|
  {
    hide LocksAgree, DataAgrees, Money, Step, Can, Safe, Replay, History;
    all := states;
    if run != [] && Can(s, run[0].t, run[0].act) {
      var next := StepHistory(s, init, run[0].t, run[0].act, states);
      StepMoney(s, init, run[0].t, run[0].act);
      all := RunHistory(Step(s, run[0].t, run[0].act), init, run[1..], next);
    }
  }

  // ---- The transfers a thread makes are the ones it drew ----

  // The two different accounts a thread picked last in the run.
  function Picked(run: seq<Event>, t: Tid): (nat, nat) {
    if run == [] then (0, 0)
    else
      var e := run[|run| - 1];
      if e.t == t && e.act.Pick? && e.act.from != e.act.to then (e.act.from, e.act.to) else Picked(run[..|run| - 1], t)
  }

  // A transfer for each amount it drew, between the accounts picked last.
  function Asked(run: seq<Event>, t: Tid): seq<Txn> {
    if run == [] then []
    else
      var e, rest := run[|run| - 1], Asked(run[..|run| - 1], t);
      if e.t == t && e.act.Draw? then rest + [Txn(Picked(run[..|run| - 1], t).0, Picked(run[..|run| - 1], t).1, e.act.amount)]
      else rest
  }

  // What a thread still has to write of the transfer it drew last.
  function Unwritten(th: Thread): seq<Txn> {
    if th.pc in {WriteA, WriteB} then [Txn(th.from, th.to, th.amount)] else []
  }

  // A thread between its second write and the end of the turn.
  predicate Written(th: Thread) { th.pc in {Append, Unlock2, Unlock1} }

  ghost predicate ThreadAsks(th: Thread, run: seq<Event>, t: Tid, nops: nat) {
    && (th.pc != Idle ==> Picked(run, t) == (th.from, th.to))
    && Asked(run, t) == th.done + Unwritten(th)
    && |th.done| + th.left == nops + if Written(th) then 1 else 0
  }

  ghost predicate AsksAgree(s: State, run: seq<Event>, nops: nat) {
    forall t: Tid | t < |s.threads| :: ThreadAsks(s.threads[t], run, t, nops)
  }

  // What a step makes of its thread, spelled out.
  ghost predicate Advanced(s: State, t: Tid, act: Act, after: Thread)
    requires t < |s.threads|
  {
    var th := s.threads[t];
    match th.pc
    case Idle => act.Pick? && after == if act.from == act.to then th else th.(pc := Lock1, from := act.from, to := act.to)
    case Lock1 => !act.Draw? && !act.Pick? && (after == th || after == th.(pc := Lock2))
    case Lock2 => !act.Draw? && !act.Pick? && (after == th || after == th.(pc := ReadA))
    case ReadA => act.Go? && th.from < |s.bal| && after == th.(pc := ReadB, b0 := s.bal[th.from])
    case ReadB => act.Go? && th.to < |s.bal| && after == th.(pc := Work, b1 := s.bal[th.to])
    case Work =>
      && act.Draw? && after.b0 == th.b0 - after.delta && after.b1 == th.b1 + after.delta
      && after == th.(pc := WriteA, amount := act.amount, delta := after.delta, b0 := after.b0, b1 := after.b1)
    case WriteA => act.Go? && after == th.(pc := WriteB)
    case WriteB =>
      act.Go? && after == th.(pc := if s.chain then Append else Unlock2, done := th.done + [Txn(th.from, th.to, th.amount)])
    case Append => act.Go? && after == th.(pc := Unlock2)
    case Unlock2 => act.Go? && after == th.(pc := Unlock1)
    case Unlock1 => act.Go? && th.left > 0 && after == th.(pc := Idle, left := th.left - 1)
  }

  lemma StepAdvances(s: State, t: Tid, act: Act)
    requires LocksAgree(s) && Can(s, t, act)
    ensures var s' := Step(s, t, act);
            && |s'.threads| == |s.threads| && (forall u: Tid | u < |s.threads| && u != t :: s'.threads[u] == s.threads[u])
            && Advanced(s, t, act, s'.threads[t])
  {
    hide LocksAgree, LM.Inv, LM.Step, LockStep, UnlockStep, Delta;
    ThreadFacts(s, t);
    var th := s.threads[t];
    if th.pc in {Lock1, Lock2} {
      LockStepShape(s, t);
    } else if th.pc == Unlock1 {
      assert Lower(th) in Accts(th);
      UnlockStepShape(s, t, Lower(th), th.(pc := Idle, left := th.left - 1));
    } else if th.pc == Unlock2 {
      assert Upper(th) in Accts(th);
      UnlockStepShape(s, t, Upper(th), th.(pc := Unlock1));
    }
  }

  // The accounts locked at each place: the smaller number first, and given
  // back last.
  predicate Holding(th: Thread, a: nat) {
    match th.pc
    case Idle => false
    case Lock1 => false
    case Lock2 => (a == th.from && th.from < th.to) || (a == th.to && th.to < th.from)
    case Unlock1 => (a == th.from && th.from < th.to) || (a == th.to && th.to < th.from)
    case _ => a == th.from || a == th.to
  }

  // The ranges a thread holds are the records of those accounts.
  lemma HeldByPlace(s: State, t: Tid, r: Range)
    requires LocksAgree(s) && t < |s.threads|
    ensures LM.Hold(t, r) in s.locks.held <==> exists a: nat :: Holding(s.threads[t], a) && r == Range(16 * a, 16)
  {
    hide LM.Inv;
    ThreadFacts(s, t);
    var th := s.threads[t];
    assert forall a: nat :: a in Accts(th) <==> Holding(th, a);
    if LM.Hold(t, r) in s.locks.held {
      var a: nat :| a in Accts(th) && r == Rec(a);
      assert Holding(th, a);
    }
    if a: nat :| Holding(th, a) && r == Range(16 * a, 16) {
      assert a in Accts(th) && r == Rec(a);
    }
  }

  lemma AskedMore(run: seq<Event>, e: Event, t: Tid)
    ensures Picked(run + [e], t) ==
            if e.t == t && e.act.Pick? && e.act.from != e.act.to then (e.act.from, e.act.to) else Picked(run, t)
    ensures Asked(run + [e], t) ==
            Asked(run, t) + if e.t == t && e.act.Draw? then [Txn(Picked(run, t).0, Picked(run, t).1, e.act.amount)] else []
  {
    assert (run + [e])[..|run|] == run;
  }

  lemma StepAsks(s: State, run: seq<Event>, nops: nat, t: Tid, act: Act)
    requires LocksAgree(s) && Can(s, t, act) && AsksAgree(s, run, nops)
    ensures AsksAgree(Step(s, t, act), run + [Event(t, act)], nops)
  {
    hide LocksAgree, Step, Can, Asked, Picked;
    StepAdvances(s, t, act);
    var s' := Step(s, t, act);
    forall u: Tid | u < |s'.threads|
      ensures ThreadAsks(s'.threads[u], run + [Event(t, act)], u, nops)
    {
      AskedMore(run, Event(t, act), u);
      assert ThreadAsks(s.threads[u], run, u, nops);
    }
  }

  // The state before the last event of a run.
  lemma {:induction false} ExecLast(s: State, run: seq<Event>) returns (before: State)
    requires LocksAgree(s) && run != [] && Exec(s, run).Reached?
    ensures Exec(s, run[..|run| - 1]) == Reached(before) && LocksAgree(before)
    ensures Can(before, run[|run| - 1].t, run[|run| - 1].act)
    ensures Exec(s, run).s == Step(before, run[|run| - 1].t, run[|run| - 1].act)
    decreases |run|
  {
    hide LocksAgree, Step, Can;
    StepKeepsLocks(s, run[0].t, run[0].act);
    if |run| == 1 {
      assert run[1..] == [] && run[..0] == [];
      before := s;
    } else {
      before := ExecLast(Step(s, run[0].t, run[0].act), run[1..]);
      assert run[1..][..|run| - 2] == run[..|run| - 1][1..];
    }
  }

  lemma {:induction false} RunAsks(s: State, run: seq<Event>, nops: nat)
    requires LocksAgree(s) && AsksAgree(s, [], nops)
    ensures Exec(s, run).Reached? ==> AsksAgree(Exec(s, run).s, run, nops)
    decreases |run|
  {
    hide LocksAgree, Step, Can, AsksAgree;
    if run != [] && Exec(s, run).Reached? {
      var last := run[|run| - 1];
      var before := ExecLast(s, run);
      RunAsks(s, run[..|run| - 1], nops);
      StepAsks(before, run[..|run| - 1], nops, last.t, last.act);
      assert run[..|run| - 1] + [Event(last.t, last.act)] == run;
    }
  }

  lemma StartAsks(chunk: nat, nchunks: nat, bal: seq<int>, nthreads: nat, nops: nat, chain: bool)
    ensures AsksAgree(Start(chunk, nchunks, bal, nthreads, nops, chain), [], nops)
  {
  }

  // Over every run: what each thread has done is what it drew, in that order,
  // but for the transfer it is still writing; a thread that is through has
  // made all its transfers.
  lemma AsksOverRuns(chunk: nat, nchunks: nat, bal: seq<int>, nthreads: nat, nops: nat, chain: bool, run: seq<Event>)
    requires chunk > 0
    requires forall a: nat | a < |bal| :: LastChunk(chunk, Rec(a)) < nchunks
    ensures Inv(Start(chunk, nchunks, bal, nthreads, nops, chain), bal)
    ensures var out := Exec(Start(chunk, nchunks, bal, nthreads, nops, chain), run);
            out.Reached? ==>
              && |out.s.threads| == nthreads
              && (forall t: Tid | t < nthreads :: Asked(run, t) == Project(out.s.log, t) + Unwritten(out.s.threads[t]))
              && (forall t: Tid | t < nthreads && out.s.threads[t].pc == Idle && out.s.threads[t].left == 0 ::
                    |Asked(run, t)| == nops)
  {
    var s := Start(chunk, nchunks, bal, nthreads, nops, chain);
    StartInv(chunk, nchunks, bal, nthreads, nops, chain);
    StartAsks(chunk, nchunks, bal, nthreads, nops, chain);
    RunAsks(s, run, nops);
    RunInv(s, bal, run);
    if Exec(s, run).Reached? {
      DoneIsLogged(Exec(s, run).s, bal);
    }
  }

  lemma DoneIsLogged(s: State, init: seq<int>)
    requires Inv(s, init)
    ensures forall t: Tid | t < |s.threads| :: s.threads[t].done == Project(s.log, t)
  {
    hide LocksAgree, Project;
  }

  // ---- The ledger ----

  // The sum of what the lines say of account x.
  function SumFor(lines: seq<Line>, x: nat): int {
    if lines == [] then 0
    else SumFor(lines[..|lines| - 1], x) + if lines[|lines| - 1].acct == x then lines[|lines| - 1].delta else 0
  }

  lemma {:induction false} LedgerSums(bal: seq<int>, lines: seq<Line>, x: nat)
    requires x < |bal|
    ensures LedgerReplay(bal, lines)[x] == bal[x] + SumFor(lines, x)
    decreases |lines|
  {
    if lines != [] { LedgerSums(bal, lines[..|lines| - 1], x); }
  }

  // ---- All of it over every run of safe draws ----

  // One transfer after the other, each thread's the ones it drew, takes the
  // balances from what they were to what they are, but for an account
  // half-written just now; and the ledger says of an account nobody is in
  // what it has gained.
  ghost predicate Explained(s: State, bal: seq<int>, run: seq<Event>, nops: nat, order: seq<Entry>, states: seq<seq<int>>) {
    && History(states, order) && states[0] == bal && |s.bal| == |bal| == |states[|order|]|
    && (forall x: nat | x < |bal| && (forall t: Tid | t < |s.threads| :: !HalfWritten(s.threads[t], x)) ::
          s.bal[x] == states[|order|][x])
    && (forall t: Tid | t < |s.threads| :: Asked(run, t) == Project(order, t) + Unwritten(s.threads[t]))
    && (forall t: Tid | t < |s.threads| && s.threads[t].pc == Idle && s.threads[t].left == 0 :: |Asked(run, t)| == nops)
    && (s.chain ==> forall x: nat | x < |bal| && Outside(s, x) :: SumFor(s.lines, x) == s.bal[x] - bal[x])
  }

  lemma TransfersExplained(chunk: nat, nchunks: nat, bal: seq<int>, nthreads: nat, nops: nat, chain: bool, run: seq<Event>)
    requires chunk > 0 && AllInRange(bal)
    requires forall a: nat | a < |bal| :: LastChunk(chunk, Rec(a)) < nchunks
    ensures Inv(Start(chunk, nchunks, bal, nthreads, nops, chain), bal)
    ensures var s := Start(chunk, nchunks, bal, nthreads, nops, chain);
            && (NoNegativeDraw(run) ==> SafeRun(s, run))
            && (SafeRun(s, run) && Exec(s, run).Reached? ==>
                  exists order, states :: Explained(Exec(s, run).s, bal, run, nops, order, states))
  {
    hide LocksAgree, DataAgrees, Money, SafeRun, StaysInRange, NoNegativeDraw, Exec, Asked, Project, Quiescent;
    var s := Start(chunk, nchunks, bal, nthreads, nops, chain);
    MoneyOverRuns(chunk, nchunks, bal, nthreads, nops, chain, run);
    AsksOverRuns(chunk, nchunks, bal, nthreads, nops, chain, run);
    if SafeRun(s, run) && Exec(s, run).Reached? {
      StartMoney(chunk, nchunks, bal, nthreads, nops, chain);
      var states := RunHistory(s, bal, run, [bal]);
      var end := Exec(s, run).s;
      RunInv(s, bal, run);
      LogIsSerialOrder(end, bal);
      LedgerTells(end, bal);
      assert Explained(end, bal, run, nops, end.log, states);
    }
  }

  lemma LedgerTells(s: State, bal: seq<int>)
    requires Sound(s, bal)
    ensures s.chain ==> forall x: nat | x < |bal| && Outside(s, x) :: SumFor(s.lines, x) == s.bal[x] - bal[x]
  {
    hide Outside, LedgerReplay;
    forall x: nat | s.chain && x < |bal| && Outside(s, x)
      ensures SumFor(s.lines, x) == s.bal[x] - bal[x]
    {
      LedgerSums(bal, s.lines, x);
    }
  }
}
