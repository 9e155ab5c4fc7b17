// The transfer programs on what they really work on: the two arrays of the
// lock table and the bytes of the account file behind its cache. Every step is
// the step of the machine in Bank, and what is on the disk at the end is what
// some serial order of the transfers leaves.

module Transfers {
  import opened Basics
  import opened LockSpec
  import opened LockTable
  import opened PosCache
  import opened AccountText
  import opened BalanceText
  import opened AccountFile
  import opened Bank
  import opened BankSerial
  import opened BankMoney
  import opened BankLaws
  import LM = LockMachine

  // The balances in the file are these numbers.
  predicate Shows(bytes: seq<Byte>, bal: seq<int>) {
    |bytes| == ASIZE * |bal| && |Balances(bytes)| == |bal|
    && forall a: nat | a < |bal| :: Balances(bytes)[a] == Number(bal[a])
  }

  // The characters of the file stand for these numbers.
  ghost predicate InCharacters(bytes: seq<Byte>, bal: seq<int>) {
    |bytes| == 16 * |bal| && forall a: nat | a < |bal| :: ReadAs(bytes[16 * a + 8..16 * a + 16], bal[a])
  }

  lemma ShownInCharacters(bytes: seq<Byte>, bal: seq<int>)
    requires Shows(bytes, bal)
    ensures InCharacters(bytes, bal)
  {
    hide BalanceOf, ReadAs;
    forall a: nat | a < |bal|
      ensures ReadAs(bytes[16 * a + 8..16 * a + 16], bal[a])
    {
      assert Balances(bytes)[a] == Number(bal[a]);
      ReadInCharacters(Record(bytes, a));
      assert Record(bytes, a)[8..] == bytes[16 * a + 8..16 * a + 16];
    }
  }

  // The names of all accounts.
  function Names(bytes: seq<Byte>): seq<seq<Byte>> {
    seq(|bytes| / ASIZE, a requires 0 <= a < |bytes| / ASIZE => Record(bytes, a)[..BALANCE_OFFSET])
  }

  lemma NamesKept(before: seq<Byte>, after: seq<Byte>, a: nat, b: int)
    requires ASIZE * a + ASIZE <= |before| && (after == before || OnlyBalanceChanged(before, after, a, b))
    ensures Names(after) == Names(before)
  {
    hide Balances, Record;
    if after != before {
      forall c: nat | c < |before| / ASIZE
        ensures Names(after)[c] == Names(before)[c]
      {
        assert ASIZE * c + ASIZE <= |before|;
      }
    }
  }

  // ---- What the lock steps come to ----

  // Trying for an account: woken up, asleep on it, or holding it.
  lemma LockOutcome(s: State, t: Tid, act: Act)
    requires LocksAgree(s) && Can(s, t, act) && s.threads[t].pc in {Lock1, Lock2}
    ensures |s.locks.status| == |s.threads| && TableOk(s.locks.tab) && InTable(s.locks.tab, Rec(Wanted(s.threads[t])))
    ensures var th, st, r, s' := s.threads[t], s.locks.status[t], Rec(Wanted(s.threads[t])), Step(s, t, act);
            && s'.bal == s.bal && s'.lines == s.lines && s'.chain == s.chain
            && if st.Asleep? then
                 s'.locks.tab == s.locks.tab && s'.locks.status == s.locks.status[t := LM.Retrying(r)] && s'.threads == s.threads
               else if Conflict(s.locks.tab, t, r) then
                 s'.locks.tab == s.locks.tab && s'.locks.status == s.locks.status[t := LM.Asleep(r)] && s'.threads == s.threads
               else
                 && s'.locks.tab == Acquire(s.locks.tab, t, r) && s'.locks.status == s.locks.status[t := LM.Running]
                 && s'.threads == s.threads[t := th.(pc := After(th.pc))]
  {
    hide LocksAgree, LM.Inv, Conflict, Acquire;
    ThreadFacts(s, t);
    LocksFacts(s);
    LockOpEnabled(s, t);
  }

  // The account a thread gives back, and the thread after that.
  function Returning(th: Thread): nat { if th.pc == Unlock2 then Upper(th) else Lower(th) }

  function AfterReturn(th: Thread): Thread
    requires th.left > 0
  {
    if th.pc == Unlock2 then th.(pc := Unlock1) else th.(pc := Idle, left := th.left - 1)
  }

  lemma UnlockOutcome(s: State, t: Tid, act: Act)
    requires LocksAgree(s) && Can(s, t, act) && s.threads[t].pc in {Unlock1, Unlock2}
    ensures TableOk(s.locks.tab) && s.threads[t].left > 0
    ensures var r := Rec(Returning(s.threads[t])); InTable(s.locks.tab, r) && Holds(s.locks.tab, t, r)
    ensures var th, s' := s.threads[t], Step(s, t, act);
            && s'.bal == s.bal && s'.lines == s.lines && s'.chain == s.chain && s'.threads == s.threads[t := AfterReturn(th)]
            && s'.locks.tab == Release(s.locks.tab, t, Rec(Returning(th))) && s'.locks.status == LM.WakeAll(s.locks.status)
  {
    hide LocksAgree, LM.Inv, Release, Holds, LM.WakeAll;
    ThreadFacts(s, t);
    LocksFacts(s);
    assert Returning(s.threads[t]) in Accts(s.threads[t]);
    LM.UnlockAssertionHolds(s.locks, LM.Hold(t, Rec(Returning(s.threads[t]))));
  }

  // Reading one balance.
  lemma ReadOutcome(s: State, t: Tid, act: Act)
    requires LocksAgree(s) && Can(s, t, act) && s.threads[t].pc in {ReadA, ReadB}
    ensures InDb(s, t)
    ensures var th := s.threads[t];
            Step(s, t, act) == s.(threads := s.threads[t :=
              if th.pc == ReadA then th.(pc := ReadB, b0 := s.bal[th.from]) else th.(pc := Work, b1 := s.bal[th.to])])
  {
    hide LocksAgree;
    ThreadFacts(s, t);
  }

  // Writing one balance.
  lemma WriteOutcome(s: State, t: Tid, act: Act)
    requires LocksAgree(s) && Can(s, t, act) && s.threads[t].pc in {WriteA, WriteB}
    ensures InDb(s, t)
    ensures var th, s' := s.threads[t], Step(s, t, act);
            var a, b := if th.pc == WriteA then th.from else th.to, if th.pc == WriteA then th.b0 else th.b1;
            && s'.locks == s.locks && s'.lines == s.lines && s'.chain == s.chain
            && s'.bal == s.bal[a := Stored(s.bal[a], b)]
            && s'.threads == s.threads[t :=
                 if th.pc == WriteA then th.(pc := WriteB)
                 else th.(pc := if s.chain then Append else Unlock2, done := th.done + [Txn(th.from, th.to, th.amount)])]
  {
    hide LocksAgree, Stored;
    ThreadFacts(s, t);
  }

  // A record in the file for each account.
  lemma RecordThere(bytes: seq<Byte>, bal: seq<int>, a: nat)
    requires Shows(bytes, bal) && a < |bal|
    ensures ASIZE * a + ASIZE <= |bytes| && a < |Balances(bytes)| && Balances(bytes)[a] == Number(bal[a])
  {
    hide Balances;
  }

  lemma ShowsWritten(before: seq<Byte>, after: seq<Byte>, bal: seq<int>, a: nat, v: int)
    requires Shows(before, bal) && a < |bal| && |after| == |before| && a < |Balances(before)|
    requires Balances(after) == Balances(before)[a := Number(v)]
    ensures Shows(after, bal[a := v])
  {
    hide BalanceOf;
  }

  // Every byte that changed lies in a range locked by t.
  ghost predicate InOwnLocks(before: seq<Byte>, after: seq<Byte>, held: seq<LM.Hold>, t: Tid) {
    |after| == |before| && forall i: nat | i < |before| && after[i] != before[i] :: OwnByte(held, t, i)
  }

  ghost predicate OwnByte(held: seq<LM.Hold>, t: Tid, i: nat) {
    exists h | h in held :: h.t == t && h.r.start <= i < h.r.start + h.r.len
  }

  lemma WrittenInLocks(s: State, t: Tid, before: seq<Byte>, after: seq<Byte>, a: nat, b: int)
    requires LocksAgree(s) && t < |s.threads| && a in Accts(s.threads[t])
    requires Shows(before, s.bal) && a < |s.bal|
    requires after == before || OnlyBalanceChanged(before, after, a, b)
    ensures InOwnLocks(before, after, s.locks.held, t)
  {
    hide LocksAgree, Balances, Accts;
    ThreadFacts(s, t);
    forall i: nat | i < |before| && after[i] != before[i]
      ensures OwnByte(s.locks.held, t, i)
    {
      var c := i / 16;
      assert before[i] == Record(before, c)[i % 16] && after[i] == Record(after, c)[i % 16];
      assert LM.Hold(t, Rec(a)) in s.locks.held;
    }
  }

  class Program {
    const locks: RegionLocks
    const db: Db
    const chain: bool
    var threads: seq<Thread>
    var status: seq<LM.Status>
    var lines: seq<Line>
    // the state of the machine in Bank, and the names it says nothing of
    ghost var now: State
    ghost const names: seq<seq<Byte>>

    ghost predicate Valid()
      reads this, locks, locks.nlocked, locks.owner, db, db.f, db.f.cbuf
    {
      && locks.Valid() && db.Valid() && NeverFails(db.f.kernel)
      && db.f.cbuf as object != locks.nlocked && db.f.cbuf as object != locks.owner
      && LocksAgree(now)
      && now.locks.tab == locks.Value() && now.locks.status == status
      && now.threads == threads && now.lines == lines && now.chain == chain
      && Shows(db.f.Logical(), now.bal) && Names(db.f.Logical()) == names
    }

    // All threads before their first transfer, over an account file.
    constructor (bytes: seq<Byte>, ghost bal: seq<int>, kernel: seq<Answer>, nchunks: nat, nthreads: nat, nops: nat, ch: bool)
      requires Shows(bytes, bal) && NeverFails(kernel) && nchunks > 0
      requires forall a: nat | a < |bal| :: LastChunk(ChunkSize(|bytes|, nchunks), Rec(a)) < nchunks
      ensures Valid() && fresh(locks.nlocked) && fresh(locks.owner) && fresh(db.f) && fresh(db.f.cbuf)
      ensures now == Start(ChunkSize(|bytes|, nchunks), nchunks, bal, nthreads, nops, ch) && names == Names(bytes)
    {
      locks := new RegionLocks(|bytes|, nchunks);
      var file := new File(bytes, kernel);
      db := new Db(file);
      chain := ch;
      threads := seq(nthreads, _ => Thread(Idle, nops, 0, 0, 0, 0, 0, 0, []));
      status := seq(nthreads, _ => LM.Running);
      lines := [];
      names := Names(bytes);
      now := Start(ChunkSize(|bytes|, nchunks), nchunks, bal, nthreads, nops, ch);
      StartInv(ChunkSize(|bytes|, nchunks), nchunks, bal, nthreads, nops, ch);
      new;
      assert locks.Value() == now.locks.tab;
    }

    // One step of a thread, as the machine takes it.
    method Act(t: Tid, act: Act)
      requires Valid() && Can(now, t, act)
      modifies this, locks.nlocked, locks.owner, db.f, db.f.cbuf
      ensures Valid() && now == Step(old(now), t, act)
    {
      hide Step, LocksAgree;
      match threads[t].pc {
        case Idle => PickAccounts(t, act);
        case Lock1 => LockAccount(t, act);
        case Lock2 => LockAccount(t, act);
        case ReadA => ReadBalance(t, act);
        case ReadB => ReadBalance(t, act);
        case Work => Compute(t, act);
        case WriteA => WriteBalance(t, act);
        case WriteB => WriteBalance(t, act);
        case Append => AppendReport(t, act);
        case Unlock2 => UnlockAccount(t, act);
        case Unlock1 => UnlockAccount(t, act);
      }
    }

    // Two accounts; equal picks are thrown away.
    method PickAccounts(t: Tid, act: Act)
      requires Valid() && Can(now, t, act) && threads[t].pc == Idle
      modifies this
      ensures Valid() && now == Step(old(now), t, act)
    {
      hide LocksAgree, Shows, Names;
      StepKeepsLocks(now, t, act);
      if act.from != act.to {
        threads := threads[t := threads[t].(pc := Lock1, from := act.from, to := act.to)];
      }
      now := Step(now, t, act);
    }

    // One turn in io61_lock for the account wanted next.
    method LockAccount(t: Tid, act: Act)
      requires Valid() && Can(now, t, act) && threads[t].pc in {Lock1, Lock2}
      modifies this, locks.nlocked, locks.owner
      ensures Valid() && now == Step(old(now), t, act)
    {
      hide LocksAgree, Shows, Step, Conflict, Acquire, InTable, Names;
      StepKeepsLocks(now, t, act);
      LockOutcome(now, t, act);
      var th, a := threads[t], Wanted(threads[t]);
      if status[t].Asleep? {
        status := status[t := LM.Retrying(Rec(a))];
      } else {
        var asleep := locks.LockTurn(t, RECORD * a, RECORD);
        if asleep {
          status := status[t := LM.Asleep(Rec(a))];
        } else {
          status := status[t := LM.Running];
          threads := threads[t := th.(pc := After(th.pc))];
        }
      }
      now := Step(now, t, act);
    }

    // The guards are given back, the later account first.
    method UnlockAccount(t: Tid, act: Act)
      requires Valid() && Can(now, t, act) && threads[t].pc in {Unlock1, Unlock2}
      modifies this, locks.nlocked
      ensures Valid() && now == Step(old(now), t, act)
    {
      hide LocksAgree, Shows, Step, Release, Holds, InTable, LM.WakeAll, Returning, AfterReturn, Names;
      StepKeepsLocks(now, t, act);
      UnlockOutcome(now, t, act);
      var th := threads[t];
      locks.Unlock(t, RECORD * Returning(th), RECORD);
      status := LM.WakeAll(status);
      threads := threads[t := AfterReturn(th)];
      now := Step(now, t, act);
    }

    // Reading a balance through the cache, with the name for the ledger.
    method ReadBalance(t: Tid, act: Act)
      requires Valid() && Can(now, t, act) && threads[t].pc in {ReadA, ReadB}
      modifies this, db.f, db.f.cbuf
      ensures Valid() && now == Step(old(now), t, act)
    {
      hide LocksAgree, NameOf, Balances, Step, Can, Shows, Names, File.Valid, RegionLocks.Value;
      StepKeepsLocks(now, t, act);
      ReadOutcome(now, t, act);
      var th := threads[t];
      var a := if th.pc == ReadA then th.from else th.to;
      RecordThere(db.f.Logical(), now.bal, a);
      var name := new Byte[if chain then 16 else 0](_ => 0);
      var res, balance := db.Read(a, name);
      threads := threads[t := if th.pc == ReadA then th.(pc := ReadB, b0 := balance) else th.(pc := Work, b1 := balance)];
      now := Step(now, t, act);
    }

    method Compute(t: Tid, act: Act)
      requires Valid() && Can(now, t, act) && threads[t].pc == Work
      modifies this
      ensures Valid() && now == Step(old(now), t, act)
    {
      hide LocksAgree, Shows, Names;
      StepKeepsLocks(now, t, act);
      ThreadFacts(now, t);
      var th := threads[t];
      var delta := Delta(th.b0, th.b1, act.amount);
      threads := threads[t := th.(pc := WriteA, amount := act.amount, delta := delta, b0 := th.b0 - delta, b1 := th.b1 + delta)];
      now := Step(now, t, act);
    }

    // Writing a balance through the cache, under the thread's own lock.
    method WriteBalance(t: Tid, act: Act)
      requires Valid() && Can(now, t, act) && threads[t].pc in {WriteA, WriteB}
      modifies this, db.f, db.f.cbuf
      ensures Valid() && now == Step(old(now), t, act)
      ensures InOwnLocks(old(db.f.Logical()), db.f.Logical(), old(now.locks.held), t)
    {
      hide LocksAgree, OnlyBalanceChanged, Balances, Stored, Step, Can, Shows, Names, File.Valid, RegionLocks.Value, InOwnLocks;
      StepKeepsLocks(now, t, act);
      WriteOutcome(now, t, act);
      var th := threads[t];
      var a, b := if th.pc == WriteA then th.from else th.to, if th.pc == WriteA then th.b0 else th.b1;
      RecordThere(db.f.Logical(), now.bal, a);
      ghost var before := db.f.Logical();
      var res := db.Write(a, b);
      NamesKept(before, db.f.Logical(), a, b);
      WrittenInLocks(now, t, before, db.f.Logical(), a, b);
      ShowsWritten(before, db.f.Logical(), now.bal, a, Stored(now.bal[a], b));
      threads := threads[t := if th.pc == WriteA then th.(pc := WriteB)
                              else th.(pc := if chain then Append else Unlock2,
                                       done := th.done + [Txn(th.from, th.to, th.amount)])];
      now := Step(now, t, act);
    }

    // The two lines of the ledger.
    method AppendReport(t: Tid, act: Act)
      requires Valid() && Can(now, t, act) && threads[t].pc == Append
      modifies this
      ensures Valid() && now == Step(old(now), t, act)
    {
      hide LocksAgree, Shows, Names;
      StepKeepsLocks(now, t, act);
      ThreadFacts(now, t);
      var th := threads[t];
      lines := lines + Report(th);
      threads := threads[t := th.(pc := Unlock2)];
      now := Step(now, t, act);
    }

    // Whether a thread can take this step now.
    method MayAct(t: Tid, act: Act) returns (may: bool)
      requires Valid()
      ensures may <==> Can(now, t, act)
    {
      hide LocksAgree, Balances;
      if t >= |threads| { return false; }
      ThreadFacts(now, t);
      match threads[t].pc {
        case Idle =>
          var n := |db.f.disk| / ASIZE;
          may := act.Pick? && threads[t].left > 0 && act.from < n && act.to < n;
        case Lock1 => may := if status[t].Asleep? then act.Wake? else act.Go?;
        case Lock2 => may := if status[t].Asleep? then act.Wake? else act.Go?;
        case Work => may := act.Draw?;
        case _ => may := act.Go?;
      }
    }

    // The steps are taken one after the other, up to the first that cannot be.
    method Run(events: seq<Event>) returns (done: nat)
      requires Valid()
      modifies this, locks.nlocked, locks.owner, db.f, db.f.cbuf
      ensures Valid() && done <= |events|
      ensures Exec(old(now), events[..done]) == Reached(now)
      ensures done < |events| ==> !Can(now, events[done].t, events[done].act)
    {
      hide LocksAgree, Step, Can, Shows, Names;
      done := 0;
      assert events[..0] == [];
      while done < |events|
        invariant Valid() && done <= |events|
        invariant Exec(old(now), events[..done]) == Reached(now)
      {
        var may := MayAct(events[done].t, events[done].act);
        if !may { return; }
        ExecMore(old(now), events[..done], now, events[done]);
        assert events[..done + 1] == events[..done] + [events[done]];
        Act(events[done].t, events[done].act);
        done := done + 1;
      }
    }

    // The flush when the file is closed.
    method Close()
      requires Valid()
      modifies db.f
      ensures Valid() && now == old(now) && db.f.disk == db.f.Logical()
    {
      hide LocksAgree, Shows, Names;
      if db.f.dirty && db.f.positioned {
        RestNeverFails(db.f.kernel, db.f.kernel) by { AllRemains(db.f.kernel); }
        ghost var kernel := db.f.kernel;
        var res := db.f.FlushDirtyPositioned();
        RestNeverFails(kernel, db.f.kernel);
      } else {
        db.f.CleanShowsDisk();
      }
    }
  }

  lemma {:induction false} ExecMore(s: State, run: seq<Event>, s': State, e: Event)
    requires LocksAgree(s) && LocksAgree(s') && Exec(s, run) == Reached(s') && Can(s', e.t, e.act)
    ensures LocksAgree(Step(s', e.t, e.act)) && Exec(s, run + [e]) == Reached(Step(s', e.t, e.act))
    decreases |run|
  {
    hide LocksAgree, Step, Can;
    StepKeepsLocks(s', e.t, e.act);
    if run == [] {
      assert ([] + [e])[1..] == [];
    } else {
      assert (run + [e])[1..] == run[1..] + [e] && (run + [e])[0] == run[0];
      StepKeepsLocks(s, run[0].t, run[0].act);
      ExecMore(Step(s, run[0].t, run[0].act), run[1..], s', e);
    }
  }

  // The whole program over an account file, as long as no system call fails:
  // whatever the interleaving and however short the writes, the balances on
  // the disk at the end are those of the machine's state, which some serial
  // order of the transfers explains; the names are as before, and without
  // negative draws the money is sound.
  method Transfer(bytes: seq<Byte>, ghost bal: seq<int>, kernel: seq<Answer>, nchunks: nat, nthreads: nat, nops: nat,
                  chain: bool, events: seq<Event>)
    returns (disk: seq<Byte>, done: nat, ghost end: State)
    requires Shows(bytes, bal) && NeverFails(kernel) && nchunks > 0
    requires forall a: nat | a < |bal| :: LastChunk(ChunkSize(|bytes|, nchunks), Rec(a)) < nchunks
    ensures Inv(Start(ChunkSize(|bytes|, nchunks), nchunks, bal, nthreads, nops, chain), bal)
    ensures done <= |events| && LocksAgree(end)
    ensures Exec(Start(ChunkSize(|bytes|, nchunks), nchunks, bal, nthreads, nops, chain), events[..done]) == Reached(end)
    ensures done < |events| ==> !Can(end, events[done].t, events[done].act)
    ensures Shows(disk, end.bal) && InCharacters(disk, end.bal) && Names(disk) == Names(bytes)
    ensures exists order: seq<Entry> :: SerialOrder(end, bal, order) && (Quiescent(end) ==> Shows(disk, Replay(bal, order)))
    ensures AllInRange(bal) && NoNegativeDraw(events[..done]) ==>
              Sound(end, bal) && exists order, states :: Explained(end, bal, events[..done], nops, order, states)
  {
    hide LocksAgree, Shows, Names, Sound, SafeRun, StaysInRange, NoNegativeDraw, AllInRange, Exec, Can, BankSerial.Inv, Explained, InCharacters;
    StartInv(ChunkSize(|bytes|, nchunks), nchunks, bal, nthreads, nops, chain);
    var p := new Program(bytes, bal, kernel, nchunks, nthreads, nops, chain);
    done := p.Run(events);
    p.Close();
    disk, end := p.db.f.disk, p.now;
    ShownInCharacters(disk, end.bal);
    Serialised(p.now, ChunkSize(|bytes|, nchunks), nchunks, bal, nthreads, nops, chain, events[..done]);
    if AllInRange(bal) {
      MoneyOverRuns(ChunkSize(|bytes|, nchunks), nchunks, bal, nthreads, nops, chain, events[..done]);
      TransfersExplained(ChunkSize(|bytes|, nchunks), nchunks, bal, nthreads, nops, chain, events[..done]);
    }
  }

  lemma Serialised(end: State, chunk: nat, nchunks: nat, bal: seq<int>, nthreads: nat, nops: nat, chain: bool, run: seq<Event>)
    requires chunk > 0 && forall a: nat | a < |bal| :: LastChunk(chunk, Rec(a)) < nchunks
    requires BankSerial.Inv(Start(chunk, nchunks, bal, nthreads, nops, chain), bal)
    requires Exec(Start(chunk, nchunks, bal, nthreads, nops, chain), run) == Reached(end)
    ensures exists order: seq<Entry> :: SerialOrder(end, bal, order) && (Quiescent(end) ==> end.bal == Replay(bal, order))
  {
    Serialisable(chunk, nchunks, bal, nthreads, nops, chain, run);
    var order: seq<Entry> :| SerialOrder(end, bal, order);
  }

  function ChunkSize(size: nat, nchunks: nat): (chunk: nat)
    requires nchunks > 0
    ensures chunk > 0
  {
    if size / nchunks < 16 then 16 else size / nchunks
  }
}
