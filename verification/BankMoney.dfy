// What the transfers do to the money: balances stay in range exactly while no
// draw is too negative, the total is conserved, and the ledger of
// ftxblockchain agrees with the balances line by line.

module BankMoney {
  import opened LockSpec
  import opened Bank
  import opened BankSerial
  import LM = LockMachine

  predicate InRange(b: int) { 0 <= b <= MAX_BALANCE }

  // The draws that keep both balances in range. Amounts come from a normal
  // distribution, so a negative one is unlikely but possible.
  predicate SafeDraw(b0: int, b1: int, amount: int) {
    amount >= -b1 && amount >= b0 - MAX_BALANCE
  }

  // A transfer leaves both balances in range if and only if its draw is safe.
  lemma InRangeIffSafe(b0: int, b1: int, amount: int)
    requires InRange(b0) && InRange(b1)
    ensures InRange(b0 - Delta(b0, b1, amount)) && InRange(b1 + Delta(b0, b1, amount))
            <==> SafeDraw(b0, b1, amount)
    ensures amount >= 0 ==> SafeDraw(b0, b1, amount)
    // what the two caps in the code are for
    ensures amount >= 0 ==> 0 <= Delta(b0, b1, amount) <= amount
  {
  }

  // A draw of -1 into an empty account overdraws it, and -1 is written.
  lemma UnsafeDrawOverdraws()
    ensures Serial([5, 0], Txn(0, 1, -1)) == [6, -1]
  {
  }

  function Sum(s: seq<int>): int {
    if s == [] then 0 else Sum(s[..|s| - 1]) + s[|s| - 1]
  }

  lemma {:induction false} SumUpdate(s: seq<int>, i: nat, v: int)
    requires i < |s|
    ensures Sum(s[i := v]) == Sum(s) - s[i] + v
  {
    var n := |s| - 1;
    if i == n {
      assert s[i := v][..n] == s[..n];
    } else {
      assert s[i := v][..n] == s[..n][i := v];
      SumUpdate(s[..n], i, v);
    }
  }

  // Money taken from one account and not yet added to the other.
  function Pending(threads: seq<Thread>): seq<int> {
    seq(|threads|, i requires 0 <= i < |threads| => if threads[i].pc == WriteB then threads[i].delta else 0)
  }

  function AddLine(bal: seq<int>, l: Line): (out: seq<int>)
    ensures |out| == |bal|
  {
    if l.acct < |bal| then bal[l.acct := bal[l.acct] + l.delta] else bal
  }

  // Replaying the ledger line by line.
  function LedgerReplay(bal: seq<int>, lines: seq<Line>): (out: seq<int>)
    ensures |out| == |bal|
  {
    if lines == [] then bal
    else AddLine(LedgerReplay(bal, lines[..|lines| - 1]), lines[|lines| - 1])
  }

  // No prefix of the ledger leaves an account below zero.
  ghost predicate NeverBelowZero(bal: seq<int>, lines: seq<Line>) {
    forall k: nat, x: nat | k <= |lines| && x < |bal| :: LedgerReplay(bal, lines[..k])[x] >= 0
  }

  predicate Reporting(th: Thread, x: nat) {
    th.pc == Append && (th.from == x || th.to == x)
  }

  ghost predicate AllInRange(bal: seq<int>) {
    forall x: nat | x < |bal| :: InRange(bal[x])
  }

  ghost predicate WritesInRange(threads: seq<Thread>) {
    forall t: Tid | t < |threads| && threads[t].pc in {WriteA, WriteB} ::
      InRange(threads[t].b0) && InRange(threads[t].b1)
  }

  // The ledger lags behind the settled balances by the reports still to come.
  ghost predicate LedgerAgrees(init: seq<int>, settled: seq<int>, lines: seq<Line>, threads: seq<Thread>) {
    var ledger := LedgerReplay(init, lines);
    && |settled| == |init|
    && NeverBelowZero(init, lines)
    && (forall x: nat | x < |init| && NobodyReports(threads, x) :: ledger[x] == settled[x])
    && (forall t: Tid | t < |threads| && threads[t].pc == Append :: ReportPending(threads[t], settled, ledger))
  }

  ghost predicate NobodyReports(threads: seq<Thread>, x: nat) {
    forall t: Tid | t < |threads| :: !Reporting(threads[t], x)
  }

  ghost predicate ReportPending(th: Thread, settled: seq<int>, ledger: seq<int>) {
    && th.from < |settled| == |ledger| && th.to < |settled|
    && ledger[th.from] == settled[th.from] + th.delta
    && ledger[th.to] == settled[th.to] - th.delta
  }

  // ftxxfer and ftxrocket have no ledger.
  ghost predicate NeverAppends(threads: seq<Thread>) {
    forall t: Tid | t < |threads| :: threads[t].pc != Append
  }

  ghost predicate Money(s: State, init: seq<int>) {
    && AllInRange(s.bal)
    && AllInRange(Replay(init, s.log))
    && WritesInRange(s.threads)
    && Sum(s.bal) + Sum(Pending(s.threads)) == Sum(init)
    && (if s.chain then LedgerAgrees(init, Replay(init, s.log), s.lines, s.threads) else NeverAppends(s.threads))
  }

  // The only step that could spoil the money is an unsafe draw.
  predicate Safe(s: State, t: Tid, act: Act) {
    act.Draw? && t < |s.threads| ==> SafeDraw(s.threads[t].b0, s.threads[t].b1, act.amount)
  }

  lemma PendingUpdate(threads: seq<Thread>, t: Tid, th: Thread)
    requires t < |threads|
    ensures Sum(Pending(threads[t := th])) ==
            Sum(Pending(threads)) - (if threads[t].pc == WriteB then threads[t].delta else 0)
                                  + (if th.pc == WriteB then th.delta else 0)
  {
    SumUpdate(Pending(threads), t, if th.pc == WriteB then th.delta else 0);
    assert Pending(threads[t := th]) == Pending(threads)[t := if th.pc == WriteB then th.delta else 0];
  }

  // ---- The ledger ----

  // No two threads hold the same account.
  ghost predicate AllApart(threads: seq<Thread>) {
    forall t: Tid, u: Tid | t < |threads| && u < |threads| && t != u :: Accts(threads[t]) !! Accts(threads[u])
  }

  lemma ThreadsApart(s: State)
    requires LocksAgree(s)
    ensures AllApart(s.threads)
  {
    hide LocksAgree;
    forall t: Tid, u: Tid | t < |s.threads| && u < |s.threads| && t != u
      ensures Accts(s.threads[t]) !! Accts(s.threads[u])
    {
      Exclusive(s, t, u);
    }
  }

  lemma OwnAccounts(threads: seq<Thread>, t: Tid, u: Tid)
    requires AllApart(threads) && t < |threads| && u < |threads| && t != u
    requires threads[t].pc in {WriteB, Append} && threads[u].pc in {WriteB, Append}
    ensures threads[u].from != threads[t].from && threads[u].from != threads[t].to
    ensures threads[u].to != threads[t].from && threads[u].to != threads[t].to
  {
    assert Accts(threads[t]) !! Accts(threads[u]);
    assert threads[u].from in Accts(threads[u]) && threads[u].to in Accts(threads[u]);
  }

  // Nobody else reports an account of t.
  lemma OnlyReporter(threads: seq<Thread>, t: Tid, x: nat)
    requires AllApart(threads) && t < |threads| && x in Accts(threads[t])
    ensures forall u: Tid | u < |threads| && u != t :: !Reporting(threads[u], x)
  {
    forall u: Tid | u < |threads| && u != t
      ensures !Reporting(threads[u], x)
    {
      assert Accts(threads[t]) !! Accts(threads[u]);
    }
  }

  lemma SameReports(threads: seq<Thread>, t: Tid, th: Thread, x: nat)
    requires t < |threads| && NobodyReports(threads[t := th], x) && !Reporting(threads[t], x)
    ensures NobodyReports(threads, x)
  {
    forall u: Tid | u < |threads|
      ensures !Reporting(threads[u], x)
    {
      assert u != t ==> threads[t := th][u] == threads[u];
    }
  }

  // Steps that change nothing but locks and locals keep the ledger relation.
  lemma LedgerFrame(init: seq<int>, settled: seq<int>, lines: seq<Line>, threads: seq<Thread>, t: Tid, th: Thread)
    requires LedgerAgrees(init, settled, lines, threads) && t < |threads|
    requires threads[t].pc != Append && th.pc != Append
    ensures LedgerAgrees(init, settled, lines, threads[t := th])
  {
    hide LedgerReplay, NeverBelowZero;
    forall x: nat | x < |init| && NobodyReports(threads[t := th], x)
      ensures LedgerReplay(init, lines)[x] == settled[x]
    {
      SameReports(threads, t, th, x);
    }
  }

  // After the second write thread t owes the ledger its report.
  lemma WriteBLedger(init: seq<int>, settled: seq<int>, lines: seq<Line>, threads: seq<Thread>, t: Tid, th: Thread)
    requires LedgerAgrees(init, settled, lines, threads) && AllApart(threads)
    requires t < |threads| && threads[t].pc == WriteB
    requires th.from == threads[t].from && th.to == threads[t].to && th.pc == Append
    requires th.from != th.to && th.from < |init| && th.to < |init|
    requires settled[th.from] == th.b0 + th.delta && settled[th.to] == th.b1 - th.delta
    ensures LedgerAgrees(init, settled[th.from := th.b0][th.to := th.b1], lines, threads[t := th])
  {
    hide LedgerReplay, NeverBelowZero, AllApart;
    var settled', ledger := settled[th.from := th.b0][th.to := th.b1], LedgerReplay(init, lines);
    AccountSettled(init, settled, lines, threads, t, th.from);
    AccountSettled(init, settled, lines, threads, t, th.to);
    forall u: Tid | u < |threads| && u != t && threads[u].pc == Append
      ensures ReportPending(threads[u], settled', ledger)
    {
      OwnAccounts(threads, t, u);
      assert ReportPending(threads[u], settled, ledger);
    }
    forall x: nat | x < |init| && NobodyReports(threads[t := th], x)
      ensures ledger[x] == settled'[x]
    {
      assert !Reporting(threads[t := th][t], x);
      SameReports(threads, t, th, x);
    }
  }

  lemma AccountSettled(init: seq<int>, settled: seq<int>, lines: seq<Line>, threads: seq<Thread>, t: Tid, x: nat)
    requires LedgerAgrees(init, settled, lines, threads) && AllApart(threads)
    requires t < |threads| && x in Accts(threads[t]) && threads[t].pc != Append && x < |init|
    ensures LedgerReplay(init, lines)[x] == settled[x]
  {
    hide LedgerReplay, NeverBelowZero;
    OnlyReporter(threads, t, x);
    assert NobodyReports(threads, x);
  }

  // Two more lines keep every prefix non-negative.
  lemma TwoLines(init: seq<int>, lines: seq<Line>, two: seq<Line>)
    requires NeverBelowZero(init, lines) && |two| == 2
    requires forall x: nat | x < |init| :: AddLine(LedgerReplay(init, lines), two[0])[x] >= 0
    requires forall x: nat | x < |init| :: AddLine(AddLine(LedgerReplay(init, lines), two[0]), two[1])[x] >= 0
    ensures NeverBelowZero(init, lines + two)
    ensures LedgerReplay(init, lines + two) == AddLine(AddLine(LedgerReplay(init, lines), two[0]), two[1])
  {
    var all, n := lines + two, |lines|;
    assert all[..n + 1][..n] == lines && all[..n + 2] == all && all[..n + 1] == all[..|all| - 1];
    assert LedgerReplay(init, all[..n + 1]) == AddLine(LedgerReplay(init, lines), two[0]);
    forall k: nat, x: nat | k <= |all| && x < |init|
      ensures LedgerReplay(init, all[..k])[x] >= 0
    {
      if k <= n {
        assert all[..k] == lines[..k];
      }
    }
  }

  lemma ReportInRange(init: seq<int>, lines: seq<Line>, th: Thread, settled: seq<int>)
    requires NeverBelowZero(init, lines) && AllInRange(settled) && th.from != th.to
    requires |settled| == |init| && ReportPending(th, settled, LedgerReplay(init, lines))
    ensures forall x: nat | x < |init| :: AddLine(LedgerReplay(init, lines), Report(th)[0])[x] >= 0
    ensures forall x: nat | x < |init| ::
              AddLine(AddLine(LedgerReplay(init, lines), Report(th)[0]), Report(th)[1])[x] >= 0
  {
    assert lines[..|lines|] == lines;
    assert InRange(settled[th.from]) && InRange(settled[th.to]);
  }

  // The appended report restores the agreement.
  lemma AppendLedger(init: seq<int>, settled: seq<int>, lines: seq<Line>, threads: seq<Thread>, t: Tid)
    requires LedgerAgrees(init, settled, lines, threads) && AllApart(threads) && AllInRange(settled)
    requires t < |threads| && threads[t].pc == Append && threads[t].from != threads[t].to
    ensures LedgerAgrees(init, settled, lines + Report(threads[t]), threads[t := threads[t].(pc := Unlock2)])
  {
    hide LedgerReplay, NeverBelowZero, AllApart;
    var th := threads[t];
    var ledger, ledger' := LedgerReplay(init, lines), LedgerReplay(init, lines + Report(th));
    ReportInRange(init, lines, th, settled);
    TwoLines(init, lines, Report(th));
    forall u: Tid | u < |threads| && u != t && threads[u].pc == Append
      ensures ReportPending(threads[u], settled, ledger')
    {
      OwnAccounts(threads, t, u);
      assert ReportPending(threads[u], settled, ledger);
    }
    forall x: nat | x < |init| && NobodyReports(threads[t := th.(pc := Unlock2)], x)
      ensures ledger'[x] == settled[x]
    {
      if x != th.from && x != th.to {
        SameReports(threads, t, th.(pc := Unlock2), x);
      }
    }
  }

  // ---- The steps ----

  ghost predicate QuietChange(s: State, t: Tid, s': State)
    requires t < |s.threads|
  {
    && OnlyThread(s, t, s')
    && WritesInRange(s'.threads) && s'.threads[t].pc !in {WriteB, Append}
  }

  lemma DrawShape(s: State, init: seq<int>, t: Tid, amount: int)
    requires Inv(s, init) && AllInRange(Replay(init, s.log)) && WritesInRange(s.threads)
    requires InDb(s, t) && s.threads[t].pc == Work
    requires SafeDraw(s.threads[t].b0, s.threads[t].b1, amount)
    ensures QuietChange(s, t, DrawStep(s, t, amount))
  {
    hide LocksAgree, DataAgrees, Replay;
    var th := s.threads[t];
    KnownBy(s, init, t);
    InRangeIffSafe(th.b0, th.b1, amount);
  }

  lemma QuietShape(s: State, t: Tid, act: Act)
    requires LocksAgree(s) && WritesInRange(s.threads) && Can(s, t, act)
    requires s.threads[t].pc !in {Work, WriteA, WriteB, Append}
    ensures QuietChange(s, t, Step(s, t, act))
  {
    hide LocksAgree, LM.Inv, Step;
    QuietStepShape(s, t, act);
    ThreadFacts(s, t);
  }

  lemma QuietMoneyFrom(s: State, init: seq<int>, t: Tid, s': State)
    requires Money(s, init) && t < |s.threads|
    requires s.threads[t].pc !in {WriteB, Append} && QuietChange(s, t, s')
    ensures Money(s', init)
  {
    hide LedgerAgrees, Replay;
    PendingUpdate(s.threads, t, s'.threads[t]);
    if s.chain {
      LedgerFrame(init, Replay(init, s.log), s.lines, s.threads, t, s'.threads[t]);
    }
  }

  lemma QuietMoney(s: State, init: seq<int>, t: Tid, act: Act)
    requires Inv(s, init) && Money(s, init) && Can(s, t, act) && Safe(s, t, act)
    requires s.threads[t].pc !in {WriteA, WriteB, Append}
    ensures Money(Step(s, t, act), init)
  {
    hide LocksAgree, LM.Inv, LM.Step, DataAgrees, LockStep, UnlockStep, DrawStep, LedgerAgrees, Replay;
    ThreadFacts(s, t);
    if s.threads[t].pc == Work {
      DrawShape(s, init, t, act.amount);
    } else {
      QuietShape(s, t, act);
    }
    QuietMoneyFrom(s, init, t, Step(s, t, act));
  }

  lemma WriteAMoney(s: State, init: seq<int>, t: Tid)
    requires Inv(s, init) && Money(s, init) && InDb(s, t) && s.threads[t].pc == WriteA
    ensures Money(WriteAStep(s, t), init)
  {
    hide LocksAgree, DataAgrees, Replay, LedgerAgrees, Sum, Pending;
    var th, s' := s.threads[t], WriteAStep(s, t);
    KnownBy(s, init, t);
    assert th.from in Accts(th) && s.bal[th.from] == th.b0 + th.delta;
    PendingUpdate(s.threads, t, s'.threads[t]);
    SumUpdate(s.bal, th.from, th.b0);
    if s.chain {
      LedgerFrame(init, Replay(init, s.log), s.lines, s.threads, t, s'.threads[t]);
    }
  }

  lemma WriteBMoney(s: State, init: seq<int>, t: Tid)
    requires Inv(s, init) && Money(s, init) && InDb(s, t) && s.threads[t].pc == WriteB
    ensures Money(WriteBStep(s, t), init)
  {
    hide Replay, LocksAgree, DataAgrees, WriteBStep, LedgerAgrees, Sum, Pending;
    var th, s', settled := s.threads[t], WriteBStep(s, t), Replay(init, s.log);
    WriteBShape(s, init, t);
    PendingUpdate(s.threads, t, s'.threads[t]);
    SumUpdate(s.bal, th.to, th.b1);
    if s.chain {
      ThreadsApart(s);
      WriteBLedger(init, settled, s.lines, s.threads, t, s'.threads[t]);
    }
  }

  // What the second write changes, and what it settles.
  lemma WriteBShape(s: State, init: seq<int>, t: Tid)
    requires Inv(s, init) && InDb(s, t) && s.threads[t].pc == WriteB && WritesInRange(s.threads)
    ensures var th, s', settled := s.threads[t], WriteBStep(s, t), Replay(init, s.log);
            && |init| == |s.bal| && th.from != th.to && InRange(th.b0) && InRange(th.b1)
            && |s'.threads| == |s.threads| && s'.threads == s.threads[t := s'.threads[t]]
            && s'.threads[t].pc == (if s.chain then Append else Unlock2)
            && s'.threads[t] == th.(pc := s'.threads[t].pc, done := s'.threads[t].done)
            && s'.chain == s.chain && s'.lines == s.lines
            && settled[th.from] == th.b0 + th.delta && settled[th.to] == th.b1 - th.delta
            && s.bal[th.to] == th.b1 - th.delta && s'.bal == s.bal[th.to := th.b1]
            && Replay(init, s'.log) == settled[th.from := th.b0][th.to := th.b1]
  {
    hide LocksAgree, DataAgrees, Replay, Serial;
    var th, s', settled := s.threads[t], WriteBStep(s, t), Replay(init, s.log);
    KnownBy(s, init, t);
    assert th.to in Accts(th) && s.bal[th.to] == settled[th.to];
    ReplayMore(init, s.log, Entry(t, Txn(th.from, th.to, th.amount)));
    SerialInRange(settled, th);
  }

  // A transfer whose results are in range stores both of them.
  lemma SerialInRange(settled: seq<int>, th: Thread)
    requires th.from < |settled| && th.to < |settled| && th.from != th.to
    requires Computed(th, settled) && InRange(th.b0) && InRange(th.b1)
    ensures Serial(settled, Txn(th.from, th.to, th.amount)) == settled[th.from := th.b0][th.to := th.b1]
  {
    hide Serial, Delta;
    SerialStores(settled, th);
  }

  lemma AppendMoney(s: State, init: seq<int>, t: Tid)
    requires Inv(s, init) && Money(s, init) && InDb(s, t) && s.threads[t].pc == Append
    ensures Money(AppendStep(s, t), init)
  {
    hide LocksAgree, DataAgrees, Replay, LedgerAgrees, Sum, Pending;
    ThreadFacts(s, t);
    ThreadsApart(s);
    PendingUpdate(s.threads, t, s.threads[t].(pc := Unlock2));
    AppendLedger(init, Replay(init, s.log), s.lines, s.threads, t);
  }

  lemma StepMoney(s: State, init: seq<int>, t: Tid, act: Act)
    requires Inv(s, init) && Money(s, init) && Can(s, t, act) && Safe(s, t, act)
    ensures Inv(Step(s, t, act), init) && Money(Step(s, t, act), init)
  {
    hide LocksAgree, LM.Inv, LM.Step, DataAgrees, LockStep, UnlockStep, Money, WriteAStep, WriteBStep, AppendStep;
    StepInv(s, init, t, act);
    ThreadFacts(s, t);
    if s.threads[t].pc == WriteA {
      WriteAMoney(s, init, t);
    } else if s.threads[t].pc == WriteB {
      WriteBMoney(s, init, t);
    } else if s.threads[t].pc == Append {
      AppendMoney(s, init, t);
    } else {
      QuietMoney(s, init, t, act);
    }
  }

  // A run all of whose draws are safe when they are made.
  ghost predicate SafeRun(s: State, run: seq<Event>)
    requires LocksAgree(s)
    decreases |run|
  {
    run == [] || (Can(s, run[0].t, run[0].act) ==>
      && Safe(s, run[0].t, run[0].act)
      && (StepKeepsLocks(s, run[0].t, run[0].act);
          SafeRun(Step(s, run[0].t, run[0].act), run[1..])))
  }

  lemma {:induction false} RunMoney(s: State, init: seq<int>, run: seq<Event>)
    requires Inv(s, init) && Money(s, init) && SafeRun(s, run)
    ensures Exec(s, run).Reached? ==> Inv(Exec(s, run).s, init) && Money(Exec(s, run).s, init)
    decreases |run|
  {
    if run != [] && Can(s, run[0].t, run[0].act) {
      StepMoney(s, init, run[0].t, run[0].act);
      RunMoney(Step(s, run[0].t, run[0].act), init, run[1..]);
    }
  }

  // Every state of the run has its balances, and the ones about to be
  // written, in range.
  ghost predicate StaysInRange(s: State, run: seq<Event>)
    requires LocksAgree(s)
    decreases |run|
  {
    && AllInRange(s.bal) && WritesInRange(s.threads)
    && (run != [] && Can(s, run[0].t, run[0].act) ==>
          (StepKeepsLocks(s, run[0].t, run[0].act);
           StaysInRange(Step(s, run[0].t, run[0].act), run[1..])))
  }

  // The money stays in range if and only if all draws are safe.
  lemma {:induction false} StaysInRangeIff(s: State, init: seq<int>, run: seq<Event>)
    requires Inv(s, init) && Money(s, init)
    ensures StaysInRange(s, run) <==> SafeRun(s, run)
    decreases |run|
  {
    if run != [] && Can(s, run[0].t, run[0].act) {
      StepKeepsLocks(s, run[0].t, run[0].act);
      if Safe(s, run[0].t, run[0].act) {
        StepMoney(s, init, run[0].t, run[0].act);
        StaysInRangeIff(Step(s, run[0].t, run[0].act), init, run[1..]);
      } else {
        UnsafeDrawSpoils(s, init, run[0].t, run[0].act);
      }
    }
  }

  // What a thread read before it draws is in range.
  lemma ReadInRange(s: State, init: seq<int>, t: Tid)
    requires Inv(s, init) && Money(s, init) && t < |s.threads| && s.threads[t].pc == Work
    ensures InDb(s, t) && InRange(s.threads[t].b0) && InRange(s.threads[t].b1)
  {
    KnownBy(s, init, t);
  }

  // An unsafe draw leaves a balance out of range to be written.
  lemma UnsafeDrawSpoils(s: State, init: seq<int>, t: Tid, act: Act)
    requires Inv(s, init) && Money(s, init) && Can(s, t, act) && !Safe(s, t, act)
    ensures !WritesInRange(Step(s, t, act).threads)
  {
    ReadInRange(s, init, t);
    InRangeIffSafe(s.threads[t].b0, s.threads[t].b1, act.amount);
    DrawnThread(s, t, act.amount);
  }

  lemma DrawnThread(s: State, t: Tid, amount: int)
    requires InDb(s, t)
    ensures var th, th' := s.threads[t], DrawStep(s, t, amount).threads[t];
            && th'.pc == WriteA && t < |DrawStep(s, t, amount).threads|
            && th'.b0 == th.b0 - Delta(th.b0, th.b1, amount) && th'.b1 == th.b1 + Delta(th.b0, th.b1, amount)
  {
  }

  // No draw of the run is negative.
  predicate NoNegativeDraw(run: seq<Event>) {
    forall e | e in run && e.act.Draw? :: e.act.amount >= 0
  }

  lemma {:induction false} NonNegativeIsSafe(s: State, init: seq<int>, run: seq<Event>)
    requires Inv(s, init) && Money(s, init) && NoNegativeDraw(run)
    ensures SafeRun(s, run)
    decreases |run|
  {
    if run != [] && Can(s, run[0].t, run[0].act) {
      var t, act := run[0].t, run[0].act;
      if act.Draw? {
        ReadInRange(s, init, t);
        InRangeIffSafe(s.threads[t].b0, s.threads[t].b1, act.amount);
      }
      StepMoney(s, init, t, act);
      NonNegativeIsSafe(Step(s, t, act), init, run[1..]);
    }
  }

  ghost predicate Outside(s: State, x: nat) {
    forall t: Tid | t < |s.threads| :: x !in Accts(s.threads[t])
  }

  // Everything in range, every balance about to be written short enough for
  // its field, money conserved, and the ledger equal to the balance of every
  // account outside a transaction.
  ghost predicate Sound(s: State, bal: seq<int>) {
    && |s.bal| == |bal| && AllInRange(s.bal)
    && (forall t: Tid | t < |s.threads| && s.threads[t].pc in {WriteA, WriteB} ::
          Fits(s.threads[t].b0) && Fits(s.threads[t].b1))
    && Sum(s.bal) + Sum(Pending(s.threads)) == Sum(bal)
    && (s.chain ==> NeverBelowZero(bal, s.lines))
    && (s.chain ==> forall x: nat | x < |bal| && Outside(s, x) :: LedgerReplay(bal, s.lines)[x] == s.bal[x])
  }

  lemma StartMoney(chunk: nat, nchunks: nat, bal: seq<int>, nthreads: nat, nops: nat, chain: bool)
    requires chunk > 0 && AllInRange(bal)
    requires forall a: nat | a < |bal| :: LastChunk(chunk, Rec(a)) < nchunks
    ensures var s := Start(chunk, nchunks, bal, nthreads, nops, chain); Inv(s, bal) && Money(s, bal)
  {
    var s := Start(chunk, nchunks, bal, nthreads, nops, chain);
    StartInv(chunk, nchunks, bal, nthreads, nops, chain);
    ZeroSum(Pending(s.threads));
    assert LedgerReplay(bal, []) == bal;
  }

  // Over every run without a negative draw the money is sound; in general it
  // is over the runs of safe draws, and those are exactly the runs that keep
  // every balance in range.
  lemma MoneyOverRuns(chunk: nat, nchunks: nat, bal: seq<int>, nthreads: nat, nops: nat, chain: bool, run: seq<Event>)
    requires chunk > 0
    requires forall a: nat | a < |bal| :: LastChunk(chunk, Rec(a)) < nchunks
    requires AllInRange(bal)
    ensures Inv(Start(chunk, nchunks, bal, nthreads, nops, chain), bal)
    ensures var s := Start(chunk, nchunks, bal, nthreads, nops, chain);
            && (NoNegativeDraw(run) ==> SafeRun(s, run))
            && (SafeRun(s, run) <==> StaysInRange(s, run))
            && (SafeRun(s, run) && Exec(s, run).Reached? ==> Sound(Exec(s, run).s, bal) && Exec(s, run).s.chain == chain)
  {
    var s := Start(chunk, nchunks, bal, nthreads, nops, chain);
    StartMoney(chunk, nchunks, bal, nthreads, nops, chain);
    StaysInRangeIff(s, bal, run);
    if NoNegativeDraw(run) {
      NonNegativeIsSafe(s, bal, run);
    }
    if SafeRun(s, run) {
      SafeRunSound(s, bal, run);
    }
  }

  lemma SafeRunSound(s: State, bal: seq<int>, run: seq<Event>)
    requires Inv(s, bal) && Money(s, bal) && SafeRun(s, run)
    ensures Exec(s, run).Reached? ==> Sound(Exec(s, run).s, bal) && Exec(s, run).s.chain == s.chain
  {
    RunMoney(s, bal, run);
    RunInv(s, bal, run);
    var out := Exec(s, run);
    if out.Reached? && s.chain {
      OutsideAgrees(out.s, bal);
    }
  }

  lemma OutsideAgrees(s: State, init: seq<int>)
    requires Inv(s, init) && Money(s, init) && s.chain
    ensures forall x: nat | x < |init| && Outside(s, x) :: LedgerReplay(init, s.lines)[x] == s.bal[x]
  {
    hide LM.Inv, Replay, LedgerReplay;
    forall x: nat | x < |init| && Outside(s, x)
      ensures LedgerReplay(init, s.lines)[x] == s.bal[x]
    {
      forall t: Tid | t < |s.threads|
        ensures !Reporting(s.threads[t], x) && !HalfWritten(s.threads[t], x)
      {
        assert x !in Accts(s.threads[t]);
      }
      assert NobodyReports(s.threads, x);
    }
  }

  lemma {:induction false} ZeroSum(s: seq<int>)
    requires forall i | 0 <= i < |s| :: s[i] == 0
    ensures Sum(s) == 0
  {
    if s != [] { ZeroSum(s[..|s| - 1]); }
  }
}
