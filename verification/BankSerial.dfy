// Serialisability of the transfers: at every moment the balances are those of
// the logged transfers run one after the other, up to the one half-written
// account of each thread that is between its two writes.

module BankSerial {
  import opened LockSpec
  import opened Bank
  import LM = LockMachine

  // One transfer run with nobody else around.
  function Serial(bal: seq<int>, x: Txn): (out: seq<int>)
    ensures |out| == |bal|
  {
    if x.from < |bal| && x.to < |bal| then
      var d := Delta(bal[x.from], bal[x.to], x.amount);
      var half := bal[x.from := Stored(bal[x.from], bal[x.from] - d)];
      half[x.to := Stored(half[x.to], half[x.to] + d)]
    else bal
  }

  function Replay(bal: seq<int>, log: seq<Entry>): (out: seq<int>)
    ensures |out| == |bal|
  {
    if log == [] then bal
    else Serial(Replay(bal, log[..|log| - 1]), log[|log| - 1].txn)
  }

  // The transfers of thread t in log order.
  function Project(log: seq<Entry>, t: Tid): (out: seq<Txn>) {
    if log == [] then []
    else
      var rest := Project(log[..|log| - 1], t);
      if log[|log| - 1].t == t then rest + [log[|log| - 1].txn] else rest
  }

  // What a thread's locals say about the settled balances.
  ghost predicate LocalsOk(th: Thread, settled: seq<int>, bal: seq<int>)
    requires |settled| == |bal| && ThreadOk(|bal|, th)
  {
    match th.pc
    case ReadB => th.b0 == settled[th.from]
    case Work => th.b0 == settled[th.from] && th.b1 == settled[th.to]
    case WriteA => Computed(th, settled)
    case WriteB => Computed(th, settled) && bal[th.from] == Stored(settled[th.from], th.b0)
    case _ => true
  }

  ghost predicate Computed(th: Thread, settled: seq<int>)
    requires th.from < |settled| && th.to < |settled|
  {
    && th.delta == Delta(settled[th.from], settled[th.to], th.amount)
    && th.b0 == settled[th.from] - th.delta
    && th.b1 == settled[th.to] + th.delta
  }

  // Thread th has written account x and not yet the other one.
  predicate HalfWritten(th: Thread, x: nat) {
    th.pc == WriteB && th.from == x
  }

  predicate ByThreads(log: seq<Entry>, nthreads: nat) {
    forall e | e in log :: e.t < nthreads
  }

  ghost predicate DataAgrees(s: State, init: seq<int>)
    requires LocksAgree(s) && |init| == |s.bal|
  {
    var settled := Replay(init, s.log);
    && ByThreads(s.log, |s.threads|)
    && (forall t: Tid | t < |s.threads| ::
          LocalsOk(s.threads[t], settled, s.bal) && s.threads[t].done == Project(s.log, t))
    && (forall x: nat | x < |s.bal| && (forall t: Tid | t < |s.threads| :: !HalfWritten(s.threads[t], x)) ::
          s.bal[x] == settled[x])
  }

  ghost predicate Inv(s: State, init: seq<int>) {
    LocksAgree(s) && |init| == |s.bal| && DataAgrees(s, init)
  }

  // Another thread's view survives when only accounts of t change.
  lemma LocalsFrame(s: State, t: Tid, u: Tid, settled: seq<int>, settled': seq<int>, bal': seq<int>)
    requires LocksAgree(s) && t < |s.threads| && u < |s.threads| && t != u
    requires |settled| == |s.bal| == |settled'| == |bal'|
    requires forall x: nat | x < |s.bal| && x !in Accts(s.threads[t]) :: settled'[x] == settled[x] && bal'[x] == s.bal[x]
    requires LocalsOk(s.threads[u], settled, s.bal)
    ensures LocalsOk(s.threads[u], settled', bal')
  {
    Exclusive(s, t, u);
    var uh := s.threads[u];
    assert ThreadOk(|s.bal|, uh);
    if uh.pc in {ReadB, Work, WriteA, WriteB} {
      assert uh.from in Accts(uh) && uh.to in Accts(uh);
    }
  }

  // An account held by t is not half-written by anybody else.
  lemma NobodyElseHalfWrote(s: State, t: Tid, x: nat)
    requires LocksAgree(s) && t < |s.threads| && x in Accts(s.threads[t]) && !HalfWritten(s.threads[t], x)
    ensures forall u: Tid | u < |s.threads| :: !HalfWritten(s.threads[u], x)
  {
    forall u: Tid | u < |s.threads|
      ensures !HalfWritten(s.threads[u], x)
    {
      if u != t { Exclusive(s, t, u); }
      assert ThreadOk(|s.bal|, s.threads[u]);
    }
  }

  // What thread t knows, and that an account it holds and has not half-written
  // is settled.
  lemma KnownBy(s: State, init: seq<int>, t: Tid)
    requires Inv(s, init) && t < |s.threads|
    ensures ThreadOk(|s.bal|, s.threads[t]) && LocalsOk(s.threads[t], Replay(init, s.log), s.bal)
    ensures forall x | x in Accts(s.threads[t]) && !HalfWritten(s.threads[t], x) ::
              x < |s.bal| && s.bal[x] == Replay(init, s.log)[x]
  {
    hide LM.Inv, Replay;
    ThreadFacts(s, t);
    assert LocalsOk(s.threads[t], Replay(init, s.log), s.bal);
    forall x | x in Accts(s.threads[t]) && !HalfWritten(s.threads[t], x)
      ensures x < |s.bal| && s.bal[x] == Replay(init, s.log)[x]
    {
      NobodyElseHalfWrote(s, t, x);
    }
  }

  // Steps that change neither balances nor log, and do not start or end a
  // half-written phase.
  lemma ReadingStep(s: State, init: seq<int>, t: Tid, s': State)
    requires Inv(s, init) && LocksAgree(s') && t < |s.threads|
    requires |s'.threads| == |s.threads| && s'.bal == s.bal && s'.log == s.log
    requires forall u: Tid | u < |s.threads| && u != t :: s'.threads[u] == s.threads[u]
    requires s.threads[t].pc != WriteB && s'.threads[t].pc != WriteB && s'.threads[t].done == s.threads[t].done
    requires LocalsOk(s'.threads[t], Replay(init, s.log), s.bal)
    ensures DataAgrees(s', init)
  {
    forall x: nat | x < |s'.bal| && (forall u: Tid | u < |s'.threads| :: !HalfWritten(s'.threads[u], x))
      ensures s'.bal[x] == Replay(init, s.log)[x]
    {
      forall u: Tid | u < |s.threads|
        ensures !HalfWritten(s.threads[u], x)
      {
        if u != t { assert !HalfWritten(s'.threads[u], x); }
      }
    }
  }

  lemma LockishStepAgrees(s: State, init: seq<int>, t: Tid, act: Act)
    requires Inv(s, init) && Can(s, t, act) && LocksAgree(Step(s, t, act))
    requires s.threads[t].pc in {Idle, Lock1, Lock2, Append, Unlock2, Unlock1}
    requires |Step(s, t, act).bal| == |init|
    ensures DataAgrees(Step(s, t, act), init)
  {
    hide LocksAgree, LM.Inv, LM.Step, LockStep, UnlockStep, DataAgrees, Replay;
    ThreadFacts(s, t);
    if s.threads[t].pc != Append {
      QuietStepShape(s, t, act);
    }
    ThreadFacts(Step(s, t, act), t);
    ReadingStep(s, init, t, Step(s, t, act));
  }

  lemma ReadStepAgrees(s: State, init: seq<int>, t: Tid, act: Act)
    requires Inv(s, init) && Can(s, t, act) && LocksAgree(Step(s, t, act))
    requires s.threads[t].pc in {ReadA, ReadB, Work}
    requires |Step(s, t, act).bal| == |init|
    ensures DataAgrees(Step(s, t, act), init)
  {
    hide LocksAgree, DataAgrees, Replay;
    var th := s.threads[t];
    KnownBy(s, init, t);
    assert th.from in Accts(th) && th.to in Accts(th);
    ReadingStep(s, init, t, Step(s, t, act));
  }

  lemma WriteAStepAgrees(s: State, init: seq<int>, t: Tid)
    requires Inv(s, init) && InDb(s, t) && LocksAgree(WriteAStep(s, t))
    requires s.threads[t].pc == WriteA
    ensures DataAgrees(WriteAStep(s, t), init)
  {
    var th, s', settled := s.threads[t], WriteAStep(s, t), Replay(init, s.log);
    assert ThreadOk(|s.bal|, th) && LocalsOk(th, settled, s.bal);
    NobodyElseHalfWrote(s, t, th.from);
    forall u: Tid | u < |s'.threads|
      ensures LocalsOk(s'.threads[u], settled, s'.bal) && s'.threads[u].done == Project(s'.log, u)
    {
      if u != t { LocalsFrame(s, t, u, settled, settled, s'.bal); }
    }
    forall x: nat | x < |s'.bal| && (forall u: Tid | u < |s'.threads| :: !HalfWritten(s'.threads[u], x))
      ensures s'.bal[x] == settled[x]
    {
      assert !HalfWritten(s'.threads[t], x);
      forall u: Tid | u < |s.threads|
        ensures !HalfWritten(s.threads[u], x)
      {
        if u != t { assert !HalfWritten(s'.threads[u], x); }
      }
    }
  }

  lemma ReplayMore(init: seq<int>, log: seq<Entry>, e: Entry)
    ensures Replay(init, log + [e]) == Serial(Replay(init, log), e.txn)
  {
    assert (log + [e])[..|log|] == log;
  }

  // What a serial transfer stores, from what its thread has computed.
  lemma SerialStores(settled: seq<int>, th: Thread)
    requires th.from < |settled| && th.to < |settled| && th.from != th.to && Computed(th, settled)
    ensures Serial(settled, Txn(th.from, th.to, th.amount))
            == settled[th.from := Stored(settled[th.from], th.b0)][th.to := Stored(settled[th.to], th.b1)]
  {
    hide Delta, Stored;
  }

  // The second write settles both accounts as they stand in the file.
  lemma WriteBSettles(s: State, init: seq<int>, t: Tid)
    requires Inv(s, init) && InDb(s, t) && s.threads[t].pc == WriteB
    ensures var th, s' := s.threads[t], WriteBStep(s, t);
            && |init| == |s.bal| == |s'.bal| && th.from != th.to && s'.bal == s.bal[th.to := s'.bal[th.to]]
            && Replay(init, s'.log) == Replay(init, s.log)[th.from := s.bal[th.from]][th.to := s'.bal[th.to]]
  {
    hide LocksAgree, DataAgrees, Replay, Serial, Stored, Delta;
    var th, s', settled := s.threads[t], WriteBStep(s, t), Replay(init, s.log);
    KnownBy(s, init, t);
    assert th.to in Accts(th) && s.bal[th.to] == settled[th.to];
    ReplayMore(init, s.log, Entry(t, Txn(th.from, th.to, th.amount)));
    SerialStores(settled, th);
  }

  // Thread t is through with its two accounts; the others know what they knew.
  lemma LocalsAfter(s: State, init: seq<int>, t: Tid, s': State, settled': seq<int>, txn: Txn)
    requires Inv(s, init) && LocksAgree(s') && t < |s.threads| == |s'.threads| && |s.bal| == |s'.bal| == |settled'|
    requires forall u: Tid | u < |s.threads| && u != t :: s'.threads[u] == s.threads[u]
    requires s'.threads[t].pc in {Append, Unlock2} && s'.threads[t].done == s.threads[t].done + [txn]
    requires s'.log == s.log + [Entry(t, txn)]
    requires forall x: nat | x < |s.bal| && x !in Accts(s.threads[t]) ::
               settled'[x] == Replay(init, s.log)[x] && s'.bal[x] == s.bal[x]
    ensures forall u: Tid | u < |s'.threads| :: ThreadOk(|s'.bal|, s'.threads[u])
    ensures forall u: Tid | u < |s'.threads| ::
              LocalsOk(s'.threads[u], settled', s'.bal) && s'.threads[u].done == Project(s'.log, u)
  {
    hide LocksAgree, Replay, Accts;
    AllThreadsOk(s');
    forall u: Tid | u < |s'.threads|
      ensures LocalsOk(s'.threads[u], settled', s'.bal) && s'.threads[u].done == Project(s'.log, u)
    {
      ProjectMore(s.log, Entry(t, txn), u);
      if u != t { LocalsFrame(s, t, u, Replay(init, s.log), settled', s'.bal); }
    }
  }

  lemma WriteBStepAgrees(s: State, init: seq<int>, t: Tid)
    requires Inv(s, init) && InDb(s, t) && LocksAgree(WriteBStep(s, t)) && s.threads[t].pc == WriteB
    ensures DataAgrees(WriteBStep(s, t), init)
  {
    hide LocksAgree, Replay, Serial, Stored, Delta, LocalsOk, Project;
    var th, s' := s.threads[t], WriteBStep(s, t);
    WriteBSettles(s, init, t);
    LocalsAfter(s, init, t, s', Replay(init, s'.log), Txn(th.from, th.to, th.amount));
    forall x: nat | x < |s'.bal| && (forall u: Tid | u < |s'.threads| :: !HalfWritten(s'.threads[u], x))
      ensures s'.bal[x] == Replay(init, s'.log)[x]
    {
      if x != th.from && x != th.to {
        OthersHalfWritten(s, t, s', x);
      }
    }
  }

  lemma ProjectMore(log: seq<Entry>, e: Entry, u: Tid)
    ensures Project(log + [e], u) == Project(log, u) + if e.t == u then [e.txn] else []
  {
    assert (log + [e])[..|log|] == log;
  }

  // Nobody half-wrote x before, when nobody has after and t holds other accounts.
  lemma OthersHalfWritten(s: State, t: Tid, s': State, x: nat)
    requires t < |s.threads| == |s'.threads| && x != s.threads[t].from
    requires forall u: Tid | u < |s.threads| && u != t :: s'.threads[u] == s.threads[u]
    requires forall u: Tid | u < |s'.threads| :: !HalfWritten(s'.threads[u], x)
    ensures forall u: Tid | u < |s.threads| :: !HalfWritten(s.threads[u], x)
  {
    forall u: Tid | u < |s.threads|
      ensures !HalfWritten(s.threads[u], x)
    {
      if u != t { assert !HalfWritten(s'.threads[u], x); }
    }
  }

  lemma StepInv(s: State, init: seq<int>, t: Tid, act: Act)
    requires Inv(s, init) && Can(s, t, act)
    ensures Inv(Step(s, t, act), init)
  {
    hide LocksAgree, LM.Inv, LM.Step, LockStep, UnlockStep, DataAgrees, WriteAStep, WriteBStep;
    StepKeepsLocks(s, t, act);
    StepSameThreads(s, t, act);
    ThreadFacts(s, t);
    if s.threads[t].pc == WriteA {
      WriteAStepAgrees(s, init, t);
    } else if s.threads[t].pc == WriteB {
      WriteBStepAgrees(s, init, t);
    } else if s.threads[t].pc in {ReadA, ReadB, Work} {
      ReadStepAgrees(s, init, t, act);
    } else {
      LockishStepAgrees(s, init, t, act);
    }
  }

  // ---- Whole runs ----

  datatype Event = Event(t: Tid, act: Act)
  datatype Outcome = Stuck | Reached(s: State)

  // The state after a run from s; Stuck when some event was not possible.
  ghost function Exec(s: State, run: seq<Event>): (out: Outcome)
    requires LocksAgree(s)
    ensures out.Reached? ==> LocksAgree(out.s)
    decreases |run|
  {
    if run == [] then Reached(s)
    else if !Can(s, run[0].t, run[0].act) then Stuck
    else
      StepKeepsLocks(s, run[0].t, run[0].act);
      Exec(Step(s, run[0].t, run[0].act), run[1..])
  }

  lemma {:induction false} RunInv(s: State, init: seq<int>, run: seq<Event>)
    requires Inv(s, init)
    ensures var out := Exec(s, run);
            out.Reached? ==> Inv(out.s, init) && |out.s.threads| == |s.threads| && out.s.chain == s.chain
    decreases |run|
  {
    if run != [] && Can(s, run[0].t, run[0].act) {
      StepInv(s, init, run[0].t, run[0].act);
      StepSameThreads(s, run[0].t, run[0].act);
      RunInv(Step(s, run[0].t, run[0].act), init, run[1..]);
    }
  }

  lemma StepSameThreads(s: State, t: Tid, act: Act)
    requires LocksAgree(s) && Can(s, t, act)
    ensures |Step(s, t, act).threads| == |s.threads| && Step(s, t, act).chain == s.chain
    ensures |Step(s, t, act).bal| == |s.bal|
  {
    hide LocksAgree, LM.Inv, LM.Step, LockStep, UnlockStep;
    ThreadFacts(s, t);
    if s.threads[t].pc !in {WriteA, WriteB, Append} {
      QuietStepShape(s, t, act);
    }
  }

  // nops transfers to do for each of nthreads threads; the chunk size is any.
  function Start(chunk: nat, nchunks: nat, bal: seq<int>, nthreads: nat, nops: nat, chain: bool): (s: State) {
    State(LM.Fresh(chunk, nchunks, nthreads), bal,
          seq(nthreads, _ => Thread(Idle, nops, 0, 0, 0, 0, 0, 0, [])), [], chain, [])
  }

  lemma StartInv(chunk: nat, nchunks: nat, bal: seq<int>, nthreads: nat, nops: nat, chain: bool)
    requires chunk > 0
    requires forall a: nat | a < |bal| :: LastChunk(chunk, Rec(a)) < nchunks
    ensures Inv(Start(chunk, nchunks, bal, nthreads, nops, chain), bal)
  {
    LM.FreshInv(chunk, nchunks, nthreads);
  }

  ghost predicate Quiescent(s: State) {
    forall t: Tid | t < |s.threads| :: s.threads[t].pc != WriteB
  }

  // The order consists of the transfers the threads have done, each thread's
  // in its own order, and the balances are those the order leaves, but for an
  // account half-written just now.
  ghost predicate SerialOrder(s: State, init: seq<int>, order: seq<Entry>) {
    && |s.bal| == |init|
    && ByThreads(order, |s.threads|)
    && (forall t: Tid | t < |s.threads| :: Project(order, t) == s.threads[t].done)
    && (forall x: nat | x < |init| && (forall t: Tid | t < |s.threads| :: !HalfWritten(s.threads[t], x)) ::
          s.bal[x] == Replay(init, order)[x])
    && (Quiescent(s) ==> s.bal == Replay(init, order))
  }

  // Serialisability: whatever the interleaving, some serial order of the
  // transfers, keeping each thread's own order, leaves the same balances on
  // every account that is not half-written.
  lemma Serialisable(chunk: nat, nchunks: nat, bal: seq<int>, nthreads: nat, nops: nat, chain: bool, run: seq<Event>)
    requires chunk > 0
    requires forall a: nat | a < |bal| :: LastChunk(chunk, Rec(a)) < nchunks
    ensures Inv(Start(chunk, nchunks, bal, nthreads, nops, chain), bal)
    ensures var out := Exec(Start(chunk, nchunks, bal, nthreads, nops, chain), run);
            out.Reached? ==> |out.s.threads| == nthreads && exists order: seq<Entry> :: SerialOrder(out.s, bal, order)
  {
    StartInv(chunk, nchunks, bal, nthreads, nops, chain);
    var s := Start(chunk, nchunks, bal, nthreads, nops, chain);
    RunInv(s, bal, run);
    if Exec(s, run).Reached? {
      LogIsSerialOrder(Exec(s, run).s, bal);
    }
  }

  lemma LogIsSerialOrder(s: State, init: seq<int>)
    requires Inv(s, init)
    ensures SerialOrder(s, init, s.log)
  {
    if Quiescent(s) {
      assert forall x: nat | x < |init| :: s.bal[x] == Replay(init, s.log)[x];
    }
  }
}
